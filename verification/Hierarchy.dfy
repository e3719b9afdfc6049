/**
 The manager hierarchy of apps/api/integrations/google_ads/discover_resources.py, possibly shared and
 cyclic: the provider's answers, the reading of one answer, and the merging of records by
 (writable, level).
 */
module Hierarchy {
  import opened Wrappers

  /** A normalised customer id. */
  type AccountId = nat

  datatype Access = Admin | Standard | OtherRole

  /** A normalised row of the hierarchy query. */
  datatype Row = Row(externalId: AccountId, level: int, manager: bool)

  /** The provider's answers: the rows of each customer, and the caller's role at each root. */
  datatype Provider = Provider(rows: map<AccountId, seq<Row>>, roles: map<AccountId, Access>, managers: set<AccountId>)
  {
    function Role(root: AccountId): Option<Access> {
      if root in roles then Some(roles[root]) else None
    }

    predicate CanWrite(root: AccountId) {
      Role(root) == Some(Admin) || Role(root) == Some(Standard)
    }

    /**
     The answers are consistent: an account's level-0 row is itself and is always there, an account is
     a manager in every row or in none, and only a manager has children, which can be asked in turn.
     */
    ghost predicate Valid() {
      && (forall id, i :: id in rows && 0 <= i < |rows[id]| ==> RowValid(id, rows[id][i]))
      && (forall id :: id in rows ==> HasSelf(id))
    }

    predicate RowValid(id: AccountId, row: Row) {
      && (row.manager <==> row.externalId in managers)
      && (row.level == 0 ==> row.externalId == id)
      && (row.level == 1 ==> id in managers && row.externalId in rows)
    }

    predicate HasSelf(id: AccountId)
      requires id in rows
    {
      exists i :: 0 <= i < |rows[id]| && rows[id][i].level == 0
    }
  }

  datatype Resource = Resource(
    externalId: AccountId,
    parent: Option<AccountId>,
    writable: bool,
    manager: bool,
    level: nat,
    login: AccountId,
    role: Option<Access>)

  type Pending = (AccountId, nat)

  // ---------------------------------------------------------------------------
  // Merging
  // ---------------------------------------------------------------------------

  predicate PreferCandidate(candidate: Resource, existing: Resource) {
    if candidate.writable != existing.writable then candidate.writable
    else candidate.level < existing.level
  }

  function Merge(discovered: map<AccountId, Resource>, candidate: Resource): map<AccountId, Resource> {
    var id := candidate.externalId;
    if id !in discovered || PreferCandidate(candidate, discovered[id]) then discovered[id := candidate]
    else discovered
  }

  function MergeAll(discovered: map<AccountId, Resource>, candidates: seq<Resource>): map<AccountId, Resource> {
    if candidates == [] then discovered
    else Merge(MergeAll(discovered, candidates[..|candidates| - 1]), candidates[|candidates| - 1])
  }

  // ---------------------------------------------------------------------------
  // Reading one answer
  // ---------------------------------------------------------------------------

  /** A query in hand: who logs in, which customer is asked, and how far below the root it is. */
  datatype Query = Query(root: AccountId, id: AccountId, level: nat)

  /** Deeper rows are ignored, and so is a queried account's own row, except the root's. */
  predicate Relevant(row: Row, query: Query) {
    (row.level == 0 || row.level == 1) && !(query.id != query.root && row.externalId == query.id)
  }

  predicate Descends(row: Row, query: Query, queried: set<AccountId>) {
    Relevant(row, query) && row.manager && row.level == 1 && row.externalId !in queried
  }

  function Candidate(row: Row, query: Query, provider: Provider): Resource
    requires Relevant(row, query)
  {
    Resource(row.externalId,
             if row.level == 0 then None else Some(query.id),
             !row.manager && provider.CanWrite(query.root),
             row.manager,
             query.level + row.level,
             query.root,
             provider.Role(query.root))
  }

  function Candidates(rows: seq<Row>, query: Query, provider: Provider): seq<Resource> {
    if rows == [] then []
    else
      var last := rows[|rows| - 1];
      Candidates(rows[..|rows| - 1], query, provider)
      + if Relevant(last, query) then [Candidate(last, query, provider)] else []
  }

  function Descents(rows: seq<Row>, query: Query, queried: set<AccountId>): seq<Pending> {
    if rows == [] then []
    else
      var last := rows[|rows| - 1];
      Descents(rows[..|rows| - 1], query, queried)
      + if Descends(last, query, queried) then [(last.externalId, query.level + 1)] else []
  }

  lemma MergeOne(discovered: map<AccountId, Resource>, candidates: seq<Resource>, candidate: Resource)
    ensures MergeAll(discovered, candidates + [candidate]) == Merge(MergeAll(discovered, candidates), candidate)
  {
    assert (candidates + [candidate])[..|candidates|] == candidates;
  }

  /** The loop over the rows of one answer. */
  method ReadRows(provider: Provider, query: Query, rows: seq<Row>, queried: set<AccountId>,
                  pending0: seq<Pending>, discovered0: map<AccountId, Resource>)
    returns (pending: seq<Pending>, discovered: map<AccountId, Resource>)
    ensures pending == pending0 + Descents(rows, query, queried)
    ensures discovered == MergeAll(discovered0, Candidates(rows, query, provider))
  {
    pending, discovered := pending0, discovered0;
    for i := 0 to |rows|
      invariant pending == pending0 + Descents(rows[..i], query, queried)
      invariant discovered == MergeAll(discovered0, Candidates(rows[..i], query, provider))
    {
      assert rows[..i + 1][..i] == rows[..i];
      var row := rows[i];
      ghost var earlier := Candidates(rows[..i], query, provider);
      assert earlier + [] == earlier;
      if row.level != 0 && row.level != 1 {
        continue;
      }
      if query.id != query.root && row.externalId == query.id {
        continue;
      }
      var level := query.level + row.level;
      if row.manager && row.level == 1 && row.externalId !in queried {
        pending := pending + [(row.externalId, level)];
      }
      var parent := if row.level == 0 then None else Some(query.id);
      var role := provider.Role(query.root);
      var writable := !row.manager && (role == Some(Admin) || role == Some(Standard));
      var candidate := Resource(row.externalId, parent, writable, row.manager, level, query.root, role);
      MergeOne(discovered0, earlier, candidate);
      if row.externalId !in discovered || PreferCandidate(candidate, discovered[row.externalId]) {
        discovered := discovered[row.externalId := candidate];
      }
    }
    assert rows[..|rows|] == rows;
  }

  // ---------------------------------------------------------------------------
  // What merging keeps
  // ---------------------------------------------------------------------------

  predicate Mentions(candidates: seq<Resource>, id: AccountId) {
    exists i :: 0 <= i < |candidates| && candidates[i].externalId == id
  }

  /** A record gives less than another: it is not writable while the other is, or it is farther from its root. */
  predicate Worse(c: Resource, other: Resource) {
    (other.writable && !c.writable) || (c.writable == other.writable && other.level < c.level)
  }

  /** Candidate k is kept for the account: every earlier one for it is worse, and no later one is better. */
  ghost predicate FirstBestAt(kept: Resource, candidates: seq<Resource>, id: AccountId, k: nat) {
    && k < |candidates| && candidates[k] == kept && kept.externalId == id
    && (forall i :: 0 <= i < k && candidates[i].externalId == id ==> Worse(candidates[i], kept))
    && (forall i :: k < i < |candidates| && candidates[i].externalId == id ==> !Worse(kept, candidates[i]))
  }

  /** The first of the best candidates for the account is kept. */
  ghost predicate FirstBest(kept: Resource, candidates: seq<Resource>, id: AccountId) {
    exists k :: FirstBestAt(kept, candidates, id, k)
  }

  lemma BestGrows(front: seq<Resource>, last: Resource, id: AccountId)
    requires id in MergeAll(map[], front) ==> FirstBest(MergeAll(map[], front)[id], front, id)
    requires id in MergeAll(map[], front) <==> Mentions(front, id)
    requires id in Merge(MergeAll(map[], front), last)
    ensures FirstBest(Merge(MergeAll(map[], front), last)[id], front + [last], id)
  {
    var was, all := MergeAll(map[], front), front + [last];
    var now := Merge(was, last)[id];
    if last.externalId == id && (id !in was || PreferCandidate(last, was[id])) {
      if id in was {
        var k :| FirstBestAt(was[id], front, id, k);
      }
      assert FirstBestAt(now, all, id, |front|);
    } else {
      var k :| FirstBestAt(was[id], front, id, k);
      assert FirstBestAt(now, all, id, k);
    }
  }

  /** Merging candidates keeps the first of the best for each account mentioned, and nothing else. */
  lemma {:induction false} MergeKeepsBest(candidates: seq<Resource>, id: AccountId)
    ensures id in MergeAll(map[], candidates) <==> Mentions(candidates, id)
    ensures id in MergeAll(map[], candidates) ==> FirstBest(MergeAll(map[], candidates)[id], candidates, id)
  {
    if candidates != [] {
      var k := |candidates| - 1;
      var front, last := candidates[..k], candidates[k];
      MergeKeepsBest(front, id);
      assert Mentions(candidates, id) <==> Mentions(front, id) || last.externalId == id by {
        assert forall i :: 0 <= i < k ==> candidates[i] == front[i];
        if Mentions(front, id) {
          var i :| 0 <= i < k && front[i].externalId == id;
          assert candidates[i].externalId == id;
        }
        if last.externalId == id {
          assert candidates[k].externalId == id;
        }
      }
      if id in MergeAll(map[], candidates) {
        BestGrows(front, last, id);
        assert front + [last] == candidates;
      }
    }
  }

  /** No candidate for the account is better than the one kept. */
  lemma NoneIsBetter(candidates: seq<Resource>, id: AccountId, i: nat)
    requires i < |candidates| && candidates[i].externalId == id
    ensures id in MergeAll(map[], candidates) && !Worse(MergeAll(map[], candidates)[id], candidates[i])
  {
    MergeKeepsBest(candidates, id);
    var kept := MergeAll(map[], candidates)[id];
    hide MergeAll;
    var k :| FirstBestAt(kept, candidates, id, k);
  }

  lemma {:induction false} MergeAppend(discovered: map<AccountId, Resource>, first: seq<Resource>,
                                       second: seq<Resource>)
    ensures MergeAll(discovered, first + second) == MergeAll(MergeAll(discovered, first), second)
  {
    if second == [] {
      assert first + second == first;
    } else {
      var k := |second| - 1;
      MergeAppend(discovered, first, second[..k]);
      assert (first + second)[..|first| + k] == first + second[..k];
    }
  }

  // ---------------------------------------------------------------------------
  // What reading an answer gives
  // ---------------------------------------------------------------------------

  /** The candidates of an answer are those of its relevant rows. */
  lemma {:induction false} CandidatesAre(rows: seq<Row>, query: Query, provider: Provider, c: Resource)
    ensures c in Candidates(rows, query, provider) <==>
              exists i :: 0 <= i < |rows| && Relevant(rows[i], query) && c == Candidate(rows[i], query, provider)
  {
    if rows != [] {
      var k := |rows| - 1;
      CandidatesAre(rows[..k], query, provider, c);
      assert forall i :: 0 <= i < k ==> rows[..k][i] == rows[i];
    }
  }

  /** The managers to ask next are those of its relevant child rows not asked yet. */
  lemma {:induction false} DescentsAre(rows: seq<Row>, query: Query, queried: set<AccountId>, p: Pending)
    ensures p in Descents(rows, query, queried) <==>
              exists i :: 0 <= i < |rows| && Descends(rows[i], query, queried)
                          && p == (rows[i].externalId, query.level + 1)
  {
    if rows != [] {
      var k := |rows| - 1;
      DescentsAre(rows[..k], query, queried, p);
      assert forall i :: 0 <= i < k ==> rows[..k][i] == rows[i];
    }
  }
}
