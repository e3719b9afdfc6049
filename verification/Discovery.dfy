/**
 Account discovery in apps/api/integrations/google_ads/discover_resources.py: the loops, and what they
 find over any roots of any finite hierarchy, cyclic or not.
 */
module Discovery {
  import opened Wrappers
  import opened Hierarchy
  import opened HierarchySearch

  /** A hierarchy query sent: who logs in, and which customer is asked. */
  type Request = (AccountId, AccountId)

  /** The first occurrence of each name, as dict.fromkeys keeps them. */
  function Unique(names: seq<AccountId>): (roots: seq<AccountId>)
    ensures forall x :: x in roots <==> x in names
    ensures forall i, j :: 0 <= i < j < |roots| ==> roots[i] != roots[j]
  {
    if names == [] then []
    else
      var front, last := Unique(names[..|names| - 1]), names[|names| - 1];
      assert names == names[..|names| - 1] + [last];
      if last in front then front else front + [last]
  }

  /** Where a name occurs first. */
  function FirstIndex(names: seq<AccountId>, x: AccountId): (i: nat)
    requires x in names
    ensures i < |names| && names[i] == x && x !in names[..i]
  {
    var last := |names| - 1;
    if x in names[..last] then
      var i := FirstIndex(names[..last], x);
      assert names[..last][..i] == names[..i];
      i
    else last
  }

  /** The roots keep the order in which their names occur first. */
  lemma {:induction false} UniqueKeepsOrder(names: seq<AccountId>, i: nat, j: nat)
    requires i < j < |Unique(names)|
    ensures Unique(names)[i] in names && Unique(names)[j] in names
    ensures FirstIndex(names, Unique(names)[i]) < FirstIndex(names, Unique(names)[j])
  {
    var last := |names| - 1;
    var front := Unique(names[..last]);
    if j < |front| {
      UniqueKeepsOrder(names[..last], i, j);
    } else {
      assert front[i] in names[..last];
    }
  }

  ghost predicate Reaches(p: Provider, root: AccountId, x: AccountId) {
    exists n :: Walk(p, root, n, x)
  }

  ghost predicate ReachedFrom(p: Provider, roots: seq<AccountId>, x: AccountId) {
    exists r :: r in roots && Reaches(p, r, x)
  }

  /** The account is no manager, and the caller's role at the root is one of the two that write. */
  predicate Writable(p: Provider, root: AccountId, x: AccountId) {
    x !in p.managers && root in p.roles && p.roles[root] in {Admin, Standard}
  }

  /** Some root that may write reaches the account, and the account is no manager. */
  ghost predicate WritableFrom(p: Provider, roots: seq<AccountId>, x: AccountId) {
    exists r :: r in roots && Writable(p, r, x) && Reaches(p, r, x)
  }

  /** The records of several roots' searches. */
  ghost predicate FoundFor(found: seq<Resource>, root: AccountId, x: AccountId, n: nat) {
    exists i :: 0 <= i < |found| && found[i].login == root && found[i].externalId == x && found[i].level <= n
  }

  ghost predicate Records(p: Provider, roots: seq<AccountId>, found: seq<Resource>) {
    && (forall i :: 0 <= i < |found| ==> found[i].login in roots && Real(p, found[i].login, found[i]))
    && (forall r, n, x :: r in roots && Walk(p, r, n, x) ==> FoundFor(found, r, x, n))
  }

  /** The records come root by root. */
  ghost predicate InRootOrder(roots: seq<AccountId>, found: seq<Resource>) {
    && (forall i :: 0 <= i < |found| ==> found[i].login in roots)
    && (forall i, j :: 0 <= i < j < |found| ==>
          FirstIndex(roots, found[i].login) <= FirstIndex(roots, found[j].login))
  }

  /** Of the roots that give the record's writability none is nearer than its own, and none as near comes before. */
  ghost predicate NearestFirst(p: Provider, roots: seq<AccountId>, c: Resource, x: AccountId)
    requires c.login in roots
  {
    forall r, n :: r in roots && Walk(p, r, n, x) && (Writable(p, r, x) <==> c.writable) ==>
      && c.level <= n
      && (n == c.level ==> FirstIndex(roots, c.login) <= FirstIndex(roots, r))
  }

  /**
   What a discovered record must say: it is writable exactly when some writing root reaches the account,
   its level is the shortest distance over the roots that give that writability, it is found from the first
   root that is as near and gives it, and its parent is a discovered account strictly nearer a root.
   */
  ghost predicate Correct(p: Provider, roots: seq<AccountId>, discovered: map<AccountId, Resource>, x: AccountId)
    requires x in discovered
  {
    var c := discovered[x];
    && c.externalId == x && c.login in roots
    && (c.writable <==> WritableFrom(p, roots, x))
    && (c.writable <==> Writable(p, c.login, x))
    && Walk(p, c.login, c.level, x)
    && NearestFirst(p, roots, c, x)
    && c.role == p.Role(c.login) && (c.manager <==> x in p.managers)
    && (c.parent == None <==> c.level == 0)
    && (c.parent.Some? ==>
          && Walk(p, c.login, c.level - 1, c.parent.value) && Child(p, c.parent.value, x)
          && c.parent.value in discovered
          && discovered[c.parent.value].level < c.level)
  }

  // ---------------------------------------------------------------------------
  // Merging over the roots
  // ---------------------------------------------------------------------------

  lemma RealWalks(p: Provider, c: Resource)
    requires Real(p, c.login, c)
    ensures Walk(p, c.login, c.level, c.externalId)
  {
    if c.level > 0 {
      WalkOn(p, c.login, c.level - 1, c.parent.value, c.externalId);
    }
  }

  /** An account is discovered exactly when some root reaches it. */
  lemma DiscoveredIffReached(p: Provider, roots: seq<AccountId>, found: seq<Resource>, x: AccountId)
    requires p.Valid() && Records(p, roots, found)
    ensures x in MergeAll(map[], found) <==> ReachedFrom(p, roots, x)
  {
    MergeKeepsBest(found, x);
    if Mentions(found, x) {
      var i :| 0 <= i < |found| && found[i].externalId == x;
      RealWalks(p, found[i]);
      assert Reaches(p, found[i].login, x);
    }
    if ReachedFrom(p, roots, x) {
      var r :| r in roots && Reaches(p, r, x);
      var n :| Walk(p, r, n, x);
      assert FoundFor(found, r, x, n);
    }
  }

  lemma ReachedIsKept(p: Provider, roots: seq<AccountId>, found: seq<Resource>, x: AccountId, r: AccountId, n: nat)
    requires Records(p, roots, found) && r in roots && Walk(p, r, n, x)
    ensures x in MergeAll(map[], found)
  {
    MergeKeepsBest(found, x);
    assert FoundFor(found, r, x, n);
  }

  /** The kept record is as near as any chain from a root that gives the same writability. */
  lemma BestIsNearest(p: Provider, roots: seq<AccountId>, found: seq<Resource>, kept: Resource,
                      x: AccountId, r: AccountId, n: nat)
    requires Records(p, roots, found) && r in roots && Walk(p, r, n, x)
    requires x in MergeAll(map[], found) && kept == MergeAll(map[], found)[x]
    ensures Writable(p, r, x) ==> kept.writable
    ensures (Writable(p, r, x) <==> kept.writable) ==> kept.level <= n
  {
    hide MergeAll, Walk;
    assert FoundFor(found, r, x, n);
    var i :| 0 <= i < |found| && found[i].login == r && found[i].externalId == x && found[i].level <= n;
    assert Real(p, r, found[i]);
    NoneIsBetter(found, x, i);
  }

  /** Of the roots as near that give the same writability, the kept record is found from the first. */
  lemma BestIsFirst(p: Provider, roots: seq<AccountId>, found: seq<Resource>, kept: Resource, x: AccountId,
                    r: AccountId)
    requires Records(p, roots, found) && InRootOrder(roots, found) && r in roots && Walk(p, r, kept.level, x)
    requires x in MergeAll(map[], found) && kept == MergeAll(map[], found)[x]
    requires Writable(p, r, x) <==> kept.writable
    ensures kept.login in roots && FirstIndex(roots, kept.login) <= FirstIndex(roots, r)
  {
    MergeKeepsBest(found, x);
    hide MergeAll, Walk, FirstIndex;
    var k :| FirstBestAt(kept, found, x, k);
    assert FoundFor(found, r, x, kept.level);
    var m :| 0 <= m < |found| && found[m].login == r && found[m].externalId == x && found[m].level <= kept.level;
    assert Real(p, r, found[m]) && !Worse(found[m], kept);
  }

  lemma KeptIsReal(p: Provider, roots: seq<AccountId>, found: seq<Resource>, kept: Resource, x: AccountId)
    requires Records(p, roots, found) && x in MergeAll(map[], found) && kept == MergeAll(map[], found)[x]
    ensures kept.externalId == x && kept.login in roots && Real(p, kept.login, kept)
  {
    MergeKeepsBest(found, x);
  }

  /** A record's parent is a manager one link nearer the same root, and is kept too. */
  lemma ParentIsKept(p: Provider, roots: seq<AccountId>, found: seq<Resource>, kept: Resource, x: AccountId,
                     m: AccountId)
    requires p.Valid() && Records(p, roots, found)
    requires x in MergeAll(map[], found) && kept == MergeAll(map[], found)[x] && kept.parent == Some(m)
    ensures kept.level > 0 && kept.login in roots && Walk(p, kept.login, kept.level - 1, m)
    ensures Child(p, m, x) && m in p.managers && m in MergeAll(map[], found)
  {
    hide MergeAll, Records, Provider.Valid, Provider.CanWrite, Provider.Role;
    KeptIsReal(p, roots, found, kept, x);
    assert kept.level > 0 && Child(p, m, x);
    hide Walk, Child, Real;
    ParentIsManager(p, m, x);
    ReachedIsKept(p, roots, found, m, kept.login, kept.level - 1);
  }

  /** A manager is never writable, so it is kept at its distance over all roots. */
  lemma ManagerIsNearest(p: Provider, roots: seq<AccountId>, found: seq<Resource>, kept: Resource,
                         m: AccountId, r: AccountId, n: nat)
    requires Records(p, roots, found) && m in p.managers && r in roots && Walk(p, r, n, m)
    requires m in MergeAll(map[], found) && kept == MergeAll(map[], found)[m]
    ensures kept.level <= n
  {
    KeptIsReal(p, roots, found, kept, m);
    BestIsNearest(p, roots, found, kept, m, r, n);
  }

  /** Every parent is recorded, strictly nearer a root than its child. */
  lemma ParentIsNearer(p: Provider, roots: seq<AccountId>, found: seq<Resource>, kept: Resource, x: AccountId,
                       m: AccountId)
    requires p.Valid() && Records(p, roots, found)
    requires x in MergeAll(map[], found) && kept == MergeAll(map[], found)[x] && kept.parent == Some(m)
    ensures Child(p, m, x) && m in MergeAll(map[], found) && MergeAll(map[], found)[m].level < kept.level
  {
    hide *;
    ParentIsKept(p, roots, found, kept, x, m);
    ManagerIsNearest(p, roots, found, MergeAll(map[], found)[m], m, kept.login, kept.level - 1);
  }

  lemma KeptIsWritableIff(p: Provider, roots: seq<AccountId>, found: seq<Resource>, c: Resource, x: AccountId)
    requires Records(p, roots, found) && x in MergeAll(map[], found) && c == MergeAll(map[], found)[x]
    ensures c.writable <==> WritableFrom(p, roots, x)
  {
    KeptIsReal(p, roots, found, c, x);
    RealWalks(p, c);
    assert Reaches(p, c.login, x);
    if WritableFrom(p, roots, x) {
      var r :| r in roots && Writable(p, r, x) && Reaches(p, r, x);
      var n :| Walk(p, r, n, x);
      BestIsNearest(p, roots, found, c, x, r, n);
    }
  }

  lemma KeptIsNearestFirst(p: Provider, roots: seq<AccountId>, found: seq<Resource>, c: Resource, x: AccountId)
    requires Records(p, roots, found) && InRootOrder(roots, found)
    requires x in MergeAll(map[], found) && c == MergeAll(map[], found)[x]
    ensures c.login in roots && NearestFirst(p, roots, c, x)
  {
    KeptIsReal(p, roots, found, c, x);
    hide Walk, FirstIndex, MergeAll, Records, InRootOrder, Real, Writable;
    forall r, n | r in roots && Walk(p, r, n, x) && (Writable(p, r, x) <==> c.writable)
      ensures c.level <= n
      ensures n == c.level ==> FirstIndex(roots, c.login) <= FirstIndex(roots, r)
    {
      BestIsNearest(p, roots, found, c, x, r, n);
      if n == c.level {
        BestIsFirst(p, roots, found, c, x, r);
      }
    }
  }

  /** Merging what the searches recorded gives correct records. */
  lemma MergedIsCorrect(p: Provider, roots: seq<AccountId>, found: seq<Resource>, x: AccountId)
    requires p.Valid() && Records(p, roots, found) && InRootOrder(roots, found) && x in MergeAll(map[], found)
    ensures Correct(p, roots, MergeAll(map[], found), x)
  {
    hide MergeAll, Records, InRootOrder, NearestFirst, WritableFrom, Walk, Child, Provider.Valid;
    var c := MergeAll(map[], found)[x];
    KeptIsReal(p, roots, found, c, x);
    RealWalks(p, c);
    KeptIsWritableIff(p, roots, found, c, x);
    KeptIsNearestFirst(p, roots, found, c, x);
    if c.parent.Some? {
      ParentIsKept(p, roots, found, c, x, c.parent.value);
      ParentIsNearer(p, roots, found, c, x, c.parent.value);
    }
  }

  /** A finished search adds its records to those of the earlier roots. */
  lemma RecordsGrow(p: Provider, roots: seq<AccountId>, found: seq<Resource>, root: AccountId, s: Search)
    requires p.Valid() && root in p.rows && Records(p, roots, found) && root !in roots
    requires Searching(p, root, s) && s.pending == []
    ensures Records(p, roots + [root], found + s.found)
  {
    var all := found + s.found;
    forall i | 0 <= i < |all|
      ensures all[i].login in roots + [root] && Real(p, all[i].login, all[i])
    {
      if i >= |found| {
        assert Real(p, root, s.found[i - |found|]);
      }
    }
    forall r, n, x | r in roots + [root] && Walk(p, r, n, x)
      ensures FoundFor(all, r, x, n)
    {
      if r == root {
        EverythingFound(p, root, s, n, x);
        var i :| 0 <= i < |s.found| && s.found[i].externalId == x && s.found[i].level <= n;
        assert Real(p, root, s.found[i]) && all[|found| + i] == s.found[i];
      } else {
        assert FoundFor(found, r, x, n);
        var i :| 0 <= i < |found| && found[i].login == r && found[i].externalId == x && found[i].level <= n;
        assert all[i] == found[i];
      }
    }
  }

  /** Records of a new root after those of the earlier ones keep them root by root. */
  lemma RootOrderGrows(p: Provider, roots: seq<AccountId>, found: seq<Resource>, root: AccountId, s: Search)
    requires InRootOrder(roots, found) && root !in roots && Searching(p, root, s)
    ensures InRootOrder(roots + [root], found + s.found)
  {
    assert FoundReal(p, root, s);
    hide Searching;
    var now, all := roots + [root], found + s.found;
    assert now[..|roots|] == roots;
    assert FirstIndex(now, root) == |roots|;
    forall i | 0 <= i < |all|
      ensures all[i].login in now
      ensures FirstIndex(now, all[i].login) == if i < |found| then FirstIndex(roots, found[i].login) else |roots|
    {
      if i >= |found| {
        assert Real(p, root, s.found[i - |found|]);
      }
    }
  }

  // ---------------------------------------------------------------------------
  // The loops
  // ---------------------------------------------------------------------------

  predicate NoRepeats(requests: seq<Request>) {
    forall i, j :: 0 <= i < j < |requests| ==> requests[i] != requests[j]
  }

  /** After `earlier`, exactly the accounts in `queried` were asked under this root, each once. */
  predicate Sent(earlier: seq<Request>, requests: seq<Request>, root: AccountId, queried: set<AccountId>) {
    && NoRepeats(requests) && earlier <= requests
    && (forall i :: |earlier| <= i < |requests| ==> requests[i].0 == root && requests[i].1 in queried)
    && (forall q :: q in queried ==> (root, q) in requests)
  }

  lemma SentNext(earlier: seq<Request>, requests: seq<Request>, root: AccountId, queried: set<AccountId>, id: AccountId)
    requires Sent(earlier, requests, root, queried) && id !in queried
    requires forall i :: 0 <= i < |earlier| ==> earlier[i].0 != root
    ensures Sent(earlier, requests + [(root, id)], root, queried + {id})
  {
    forall i | 0 <= i < |requests|
      ensures requests[i] != (root, id)
    {
      if i < |earlier| {
        assert requests[i] == earlier[i];
      }
    }
  }

  /** The search below one root. */
  method SearchRoot(p: Provider, root: AccountId, discovered0: map<AccountId, Resource>, requests0: seq<Request>)
    returns (discovered: map<AccountId, Resource>, requests: seq<Request>, ghost s: Search)
    requires p.Valid() && root in p.rows
    requires NoRepeats(requests0) && forall i :: 0 <= i < |requests0| ==> requests0[i].0 != root
    ensures Searching(p, root, s) && s.pending == []
    ensures discovered == MergeAll(discovered0, s.found)
    ensures Sent(requests0, requests, root, s.asked.Keys) && NoRepeats(requests)
  {
    discovered, requests := discovered0, requests0;
    var pending: seq<Pending> := [(root, 0)];
    var queried: set<AccountId> := {};
    s := Start(root);
    StartSearches(p, root);
    assert Sent(requests0, requests, root, queried) && MergeAll(discovered0, []) == discovered0;
    hide Searching, Sent, MergeAll, Candidates, Descents;
    while pending != []
      invariant Searching(p, root, s)
      invariant pending == s.pending && queried == s.asked.Keys && queried <= p.rows.Keys
      invariant discovered == MergeAll(discovered0, s.found)
      invariant Sent(requests0, requests, root, queried)
      decreases p.rows.Keys - queried, |pending|
    {
      var (id, level) := pending[0];
      pending := pending[1..];
      ghost var before := s;
      RoundKeeps(p, root, s);
      s := Round(p, root, s);
      if id in queried {
        continue;
      }
      SentNext(requests0, requests, root, queried, id);
      queried := queried + {id};
      assert queried == before.asked[id := level].Keys;
      requests := requests + [(root, id)];
      ghost var query := Query(root, id, level);
      MergeAppend(discovered0, before.found, Candidates(p.rows[id], query, p));
      pending, discovered := ReadRows(p, Query(root, id, level), p.rows[id], queried, pending, discovered);
    }
  }

  /** The roots, and the managers below each, are the customers asked under it. */
  ghost predicate ForEachManager(p: Provider, roots: seq<AccountId>, requests: seq<Request>) {
    forall r, q :: (r, q) in requests <==> r in roots && Reaches(p, r, q) && (q == r || q in p.managers)
  }

  /** No request was sent under a root that is not among these. */
  lemma NotAskedBefore(p: Provider, roots: seq<AccountId>, requests: seq<Request>, root: AccountId)
    requires ForEachManager(p, roots, requests) && root !in roots
    ensures forall i :: 0 <= i < |requests| ==> requests[i].0 != root
  {
    forall i | 0 <= i < |requests|
      ensures requests[i].0 != root
    {
      var (r, q) := requests[i];
      assert (r, q) in requests;
    }
  }

  lemma NothingYet(p: Provider, roots: seq<AccountId>)
    requires roots == []
    ensures MergeAll(map[], []) == map[] && Records(p, roots, []) && InRootOrder(roots, [])
    ensures NoRepeats([]) && ForEachManager(p, roots, [])
  {
  }

  lemma AllCorrect(p: Provider, roots: seq<AccountId>, found: seq<Resource>)
    requires p.Valid() && Records(p, roots, found) && InRootOrder(roots, found)
    ensures forall x :: x in MergeAll(map[], found) <==> ReachedFrom(p, roots, x)
    ensures forall x :: x in MergeAll(map[], found) ==> Correct(p, roots, MergeAll(map[], found), x)
  {
    forall x
      ensures x in MergeAll(map[], found) <==> ReachedFrom(p, roots, x)
      ensures x in MergeAll(map[], found) ==> Correct(p, roots, MergeAll(map[], found), x)
    {
      DiscoveredIffReached(p, roots, found, x);
      if x in MergeAll(map[], found) {
        MergedIsCorrect(p, roots, found, x);
      }
    }
  }

  predicate DistinctRoots(p: Provider, roots: seq<AccountId>) {
    && (forall i :: 0 <= i < |roots| ==> roots[i] in p.rows)
    && (forall i, j :: 0 <= i < j < |roots| ==> roots[i] != roots[j])
  }

  lemma NextRoot(p: Provider, roots: seq<AccountId>, k: nat)
    requires DistinctRoots(p, roots) && k < |roots|
    ensures roots[k] in p.rows && roots[k] !in roots[..k] && roots[..k + 1] == roots[..k] + [roots[k]]
  {
  }

  lemma RequestsGrow(p: Provider, roots: seq<AccountId>, root: AccountId, s: Search, earlier: seq<Request>,
                     now: seq<Request>)
    requires p.Valid() && root in p.rows && root !in roots && Searching(p, root, s) && s.pending == []
    requires ForEachManager(p, roots, earlier)
    requires Sent(earlier, now, root, s.asked.Keys)
    ensures ForEachManager(p, roots + [root], now)
  {
    forall r, q
      ensures (r, q) in now <==> r in roots + [root] && Reaches(p, r, q) && (q == r || q in p.managers)
    {
      if r == root {
        if Reaches(p, root, q) && (q == root || q in p.managers) {
          var n :| Walk(p, root, n, q);
          AskedAtShortest(p, root, s, n, q);
        }
        if (r, q) in now {
          var i :| 0 <= i < |now| && now[i] == (r, q);
          assert q in s.asked;
          assert Walk(p, root, s.asked[q], q);
        }
      } else if (r, q) in now {
        var i :| 0 <= i < |now| && now[i] == (r, q);
        assert i < |earlier| && earlier[i] == now[i];
      }
    }
  }

  /** The loop over the roots. */
  method DiscoverBelow(p: Provider, roots: seq<AccountId>)
    returns (discovered: map<AccountId, Resource>, requests: seq<Request>)
    requires p.Valid() && DistinctRoots(p, roots)
    ensures forall x :: x in discovered <==> ReachedFrom(p, roots, x)
    ensures forall x :: x in discovered ==> Correct(p, roots, discovered, x)
    ensures NoRepeats(requests) && ForEachManager(p, roots, requests)
  {
    hide Searching, MergeAll, Provider.Valid, Records, ForEachManager, NoRepeats, Correct, ReachedFrom, Sent,
         DistinctRoots, InRootOrder;
    discovered, requests := map[], [];
    ghost var found: seq<Resource> := [];
    NothingYet(p, roots[..0]);
    for k := 0 to |roots|
      invariant discovered == MergeAll(map[], found)
      invariant Records(p, roots[..k], found) && InRootOrder(roots[..k], found)
      invariant NoRepeats(requests) && ForEachManager(p, roots[..k], requests)
    {
      var root := roots[k];
      ghost var s;
      ghost var earlier := requests;
      NextRoot(p, roots, k);
      NotAskedBefore(p, roots[..k], requests, root);
      discovered, requests, s := SearchRoot(p, root, discovered, requests);
      MergeAppend(map[], found, s.found);
      RecordsGrow(p, roots[..k], found, root, s);
      RootOrderGrows(p, roots[..k], found, root, s);
      found := found + s.found;
      RequestsGrow(p, roots[..k], root, s, earlier, requests);
    }
    assert roots[..|roots|] == roots;
    AllCorrect(p, roots, found);
  }

  /** Discovery over every accessible root. */
  method Discover(p: Provider, names: seq<AccountId>)
    returns (discovered: map<AccountId, Resource>, requests: seq<Request>)
    requires p.Valid() && forall x :: x in names ==> x in p.rows
    ensures forall x :: x in discovered <==> ReachedFrom(p, Unique(names), x)
    ensures forall x :: x in discovered ==> Correct(p, Unique(names), discovered, x)
    // Each customer is asked at most once for each root, and exactly the roots and the managers below them are.
    ensures NoRepeats(requests) && ForEachManager(p, Unique(names), requests)
  {
    discovered, requests := DiscoverBelow(p, Unique(names));
  }
}
