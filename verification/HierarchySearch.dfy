/**
 One root's search: first in, first out over a queue that may hold an account several times.

 The search is a function of its state, one round at a time. The invariant is the one of a
 breadth-first search: the queue is sorted within one level, and every way down to a manager that was
 not asked yet still passes a waiting account.
 */
module HierarchySearch {
  import opened Wrappers
  import opened Hierarchy

  // ---------------------------------------------------------------------------
  // Distance in the hierarchy
  // ---------------------------------------------------------------------------

  ghost predicate Child(p: Provider, m: AccountId, x: AccountId) {
    m in p.rows && exists i :: 0 <= i < |p.rows[m]| && p.rows[m][i].level == 1 && p.rows[m][i].externalId == x
  }

  /** There is a chain of n child links from the root down to x. */
  ghost predicate Walk(p: Provider, root: AccountId, n: nat, x: AccountId) {
    if n == 0 then x == root else exists m :: Walk(p, root, n - 1, m) && Child(p, m, x)
  }

  lemma WalkOn(p: Provider, root: AccountId, n: nat, m: AccountId, x: AccountId)
    requires Walk(p, root, n, m) && Child(p, m, x)
    ensures Walk(p, root, n + 1, x)
  {
  }

  lemma ParentIsManager(p: Provider, m: AccountId, x: AccountId)
    requires p.Valid() && Child(p, m, x)
    ensures m in p.managers && x in p.rows
  {
    var i :| 0 <= i < |p.rows[m]| && p.rows[m][i].level == 1 && p.rows[m][i].externalId == x;
    assert p.RowValid(m, p.rows[m][i]);
  }

  // ---------------------------------------------------------------------------
  // The search, one round at a time
  // ---------------------------------------------------------------------------

  /** What waits, what was asked and at which level, and what was found. */
  datatype Search = Search(pending: seq<Pending>, asked: map<AccountId, nat>, found: seq<Resource>)

  function Start(root: AccountId): Search {
    Search([(root, 0)], map[], [])
  }

  /** The first pending account is asked, unless it was asked before. */
  function Round(p: Provider, root: AccountId, s: Search): Search
    requires s.pending != []
    requires forall i :: 0 <= i < |s.pending| ==> s.pending[i].0 in p.rows
  {
    var (id, level) := s.pending[0];
    var rest := s.pending[1..];
    if id in s.asked then s.(pending := rest)
    else
      var asked, query := s.asked[id := level], Query(root, id, level);
      Search(rest + Descents(p.rows[id], query, asked.Keys), asked,
             s.found + Candidates(p.rows[id], query, p))
  }

  // ---------------------------------------------------------------------------
  // The invariant
  // ---------------------------------------------------------------------------

  ghost predicate QueueSorted(s: Search) {
    forall i, j :: 0 <= i <= j < |s.pending| ==> s.pending[i].1 <= s.pending[j].1 <= s.pending[i].1 + 1
  }

  /** Only the roots and managers are ever asked. */
  predicate Askable(p: Provider, root: AccountId, x: AccountId) {
    x in p.rows && (x == root || x in p.managers)
  }

  ghost predicate QueueReal(p: Provider, root: AccountId, s: Search) {
    forall i :: 0 <= i < |s.pending| ==>
      && Askable(p, root, s.pending[i].0)
      && Walk(p, root, s.pending[i].1, s.pending[i].0)
  }

  /** Everything asked is above everything that waits, and was asked at a real distance. */
  ghost predicate AskedReal(p: Provider, root: AccountId, s: Search) {
    forall q :: q in s.asked ==>
      && Askable(p, root, q) && Walk(p, root, s.asked[q], q)
      && forall i :: 0 <= i < |s.pending| ==> s.asked[q] <= s.pending[i].1
  }

  /** x was asked, or waits to be, within n of the root. */
  ghost predicate Settled(s: Search, x: AccountId, n: nat) {
    (x in s.asked && s.asked[x] <= n) || exists i :: 0 <= i < |s.pending| && s.pending[i].0 == x && s.pending[i].1 <= n
  }

  ghost predicate Closed(p: Provider, root: AccountId, s: Search) {
    && Settled(s, root, 0)
    && forall q, x :: q in s.asked && Child(p, q, x) && x in p.managers ==> Settled(s, x, s.asked[q] + 1)
  }

  /** A record stands for a real chain from its root, through its parent. */
  ghost predicate Real(p: Provider, root: AccountId, c: Resource) {
    && c.externalId in p.rows
    && c.login == root && c.role == p.Role(root)
    && (c.manager <==> c.externalId in p.managers)
    && (c.writable <==> c.externalId !in p.managers && p.CanWrite(root))
    && (if c.level == 0 then c.parent == None && c.externalId == root
        else c.parent.Some? && Walk(p, root, c.level - 1, c.parent.value) && Child(p, c.parent.value, c.externalId))
  }

  ghost predicate FoundReal(p: Provider, root: AccountId, s: Search) {
    forall i :: 0 <= i < |s.found| ==> Real(p, root, s.found[i])
  }

  ghost predicate Found(s: Search, x: AccountId, n: nat) {
    exists i :: 0 <= i < |s.found| && s.found[i].externalId == x && s.found[i].level <= n
  }

  /** Asking an account records its children, and asking the root records the root itself. */
  ghost predicate Recorded(p: Provider, root: AccountId, s: Search) {
    && (root in s.asked ==> Found(s, root, s.asked[root]))
    && forall q, x :: q in s.asked && Child(p, q, x) && (q == root || x != q) ==> Found(s, x, s.asked[q] + 1)
  }

  ghost predicate Searching(p: Provider, root: AccountId, s: Search) {
    && QueueSorted(s) && QueueReal(p, root, s) && AskedReal(p, root, s) && Closed(p, root, s)
    && FoundReal(p, root, s) && Recorded(p, root, s)
  }

  lemma StartSearches(p: Provider, root: AccountId)
    requires p.Valid() && root in p.rows
    ensures Searching(p, root, Start(root))
  {
    var s := Start(root);
    assert s.pending[0] == (root, 0);
  }

  /**
   No shortcut: a manager n links below the root was asked within n, or something that still waits is
   within n.
   */
  lemma {:induction false} NoShortcut(p: Provider, root: AccountId, s: Search, n: nat, x: AccountId)
    requires p.Valid() && Searching(p, root, s) && Walk(p, root, n, x) && (x == root || x in p.managers)
    ensures (x in s.asked && s.asked[x] <= n) || exists i :: 0 <= i < |s.pending| && s.pending[i].1 <= n
    decreases n
  {
    if n == 0 {
      assert Settled(s, root, 0);
    } else {
      var m :| Walk(p, root, n - 1, m) && Child(p, m, x);
      ParentIsManager(p, m, x);
      NoShortcut(p, root, s, n - 1, m);
      if m in s.asked && s.asked[m] <= n - 1 && x in p.managers {
        assert Settled(s, x, s.asked[m] + 1);
      } else if x !in p.managers {
        assert Settled(s, root, 0);
      }
    }
  }

  /** The account in turn is asked at its shortest distance from the root. */
  lemma TurnIsShortest(p: Provider, root: AccountId, s: Search, n: nat)
    requires p.Valid() && Searching(p, root, s) && s.pending != []
    requires var x := s.pending[0].0; x !in s.asked && Walk(p, root, n, x) && (x == root || x in p.managers)
    ensures s.pending[0].1 <= n
  {
    NoShortcut(p, root, s, n, s.pending[0].0);
  }

  // ---------------------------------------------------------------------------
  // A round keeps the invariant
  // ---------------------------------------------------------------------------

  lemma SettledAfterSkip(s: Search, next: Search, x: AccountId, n: nat)
    requires s.pending != [] && s.pending[0].0 in s.asked && s.asked[s.pending[0].0] <= s.pending[0].1
    requires next == s.(pending := s.pending[1..]) && Settled(s, x, n)
    ensures Settled(next, x, n)
  {
    if !(x in s.asked && s.asked[x] <= n) {
      var i :| 0 <= i < |s.pending| && s.pending[i].0 == x && s.pending[i].1 <= n;
      assert next.pending[i - 1] == s.pending[i];
    }
  }

  /** Dropping an account that was asked before. */
  lemma SkipKeeps(p: Provider, root: AccountId, s: Search)
    requires p.Valid() && Searching(p, root, s) && s.pending != [] && s.pending[0].0 in s.asked
    ensures Searching(p, root, Round(p, root, s))
  {
    var next, id := Round(p, root, s), s.pending[0].0;
    assert forall i :: 0 <= i < |next.pending| ==> next.pending[i] == s.pending[i + 1];
    forall x, n | Settled(s, x, n)
      ensures Settled(next, x, n)
    {
      SettledAfterSkip(s, next, x, n);
    }
    assert forall x, n :: Found(s, x, n) ==> Found(next, x, n);
  }

  /** The account in turn is asked for the first time. */
  ghost predicate Asking(p: Provider, root: AccountId, s: Search, query: Query, next: Search) {
    && p.Valid() && root in p.rows && Searching(p, root, s)
    && s.pending != [] && s.pending[0] == (query.id, query.level) && query.root == root
    && Askable(p, root, query.id) && query.id !in s.asked && Walk(p, root, query.level, query.id)
    && next == Search(s.pending[1..] + Descents(p.rows[query.id], query, s.asked.Keys + {query.id}),
                      s.asked[query.id := query.level],
                      s.found + Candidates(p.rows[query.id], query, p))
  }

  lemma DescentIsChild(p: Provider, query: Query, queried: set<AccountId>, e: Pending)
    requires p.Valid() && query.id in p.rows && e in Descents(p.rows[query.id], query, queried)
    ensures Child(p, query.id, e.0) && e.0 in p.rows && e.0 in p.managers && e.1 == query.level + 1
  {
    DescentsAre(p.rows[query.id], query, queried, e);
    var i :| 0 <= i < |p.rows[query.id]| && Descends(p.rows[query.id][i], query, queried)
             && e == (p.rows[query.id][i].externalId, query.level + 1);
    assert p.RowValid(query.id, p.rows[query.id][i]);
  }

  lemma AskKeepsQueue(p: Provider, root: AccountId, s: Search, query: Query, next: Search)
    requires Asking(p, root, s, query, next)
    ensures QueueSorted(next) && QueueReal(p, root, next) && AskedReal(p, root, next)
  {
    var rest, added := s.pending[1..], Descents(p.rows[query.id], query, s.asked.Keys + {query.id});
    forall i | 0 <= i < |next.pending|
      ensures Askable(p, root, next.pending[i].0) && Walk(p, root, next.pending[i].1, next.pending[i].0)
      ensures query.level <= next.pending[i].1 <= query.level + 1
      ensures i < |rest| ==> next.pending[i] == s.pending[i + 1]
      ensures i >= |rest| ==> next.pending[i].1 == query.level + 1
    {
      if i < |rest| {
        assert next.pending[i] == s.pending[i + 1];
      } else {
        DescentIsChild(p, query, s.asked.Keys + {query.id}, added[i - |rest|]);
        WalkOn(p, root, query.level, query.id, next.pending[i].0);
      }
    }
  }

  lemma SettledAfterAsk(p: Provider, root: AccountId, s: Search, query: Query, next: Search, x: AccountId, n: nat)
    requires Asking(p, root, s, query, next) && Settled(s, x, n)
    ensures Settled(next, x, n)
  {
    if !(x in s.asked && s.asked[x] <= n) {
      var i :| 0 <= i < |s.pending| && s.pending[i].0 == x && s.pending[i].1 <= n;
      if i > 0 {
        assert next.pending[i - 1] == s.pending[i];
      }
    }
  }

  lemma ChildSettled(p: Provider, root: AccountId, s: Search, query: Query, next: Search, x: AccountId)
    requires Asking(p, root, s, query, next) && Child(p, query.id, x) && x in p.managers
    ensures Settled(next, x, query.level + 1)
  {
    var rows, queried := p.rows[query.id], s.asked.Keys + {query.id};
    if x !in queried {
      var i :| 0 <= i < |rows| && rows[i].level == 1 && rows[i].externalId == x;
      assert p.RowValid(query.id, rows[i]);
      DescentsAre(rows, query, queried, (x, query.level + 1));
      assert Descends(rows[i], query, queried);
      var added := Descents(rows, query, queried);
      var j :| 0 <= j < |added| && added[j] == (x, query.level + 1);
      assert next.pending[|s.pending| - 1 + j] == (x, query.level + 1);
    } else if x in s.asked {
      assert s.asked[x] <= s.pending[0].1;
    }
  }

  lemma AskKeepsClosed(p: Provider, root: AccountId, s: Search, query: Query, next: Search)
    requires Asking(p, root, s, query, next)
    ensures Closed(p, root, next)
  {
    SettledAfterAsk(p, root, s, query, next, root, 0);
    forall q, x | q in next.asked && Child(p, q, x) && x in p.managers
      ensures Settled(next, x, next.asked[q] + 1)
    {
      if q == query.id {
        ChildSettled(p, root, s, query, next, x);
      } else {
        SettledAfterAsk(p, root, s, query, next, x, s.asked[q] + 1);
      }
    }
  }

  /** The root is asked at level 0, so its own row is recorded at level 0. */
  lemma CandidateIsReal(p: Provider, root: AccountId, s: Search, query: Query, next: Search, c: Resource)
    requires Asking(p, root, s, query, next) && c in Candidates(p.rows[query.id], query, p)
    ensures Real(p, root, c)
  {
    var rows := p.rows[query.id];
    CandidatesAre(rows, query, p, c);
    var i :| 0 <= i < |rows| && Relevant(rows[i], query) && c == Candidate(rows[i], query, p);
    assert p.RowValid(query.id, rows[i]);
    if rows[i].level == 0 {
      assert Walk(p, root, 0, root);
      TurnIsShortest(p, root, s, 0);
    }
  }

  lemma AskKeepsFound(p: Provider, root: AccountId, s: Search, query: Query, next: Search)
    requires Asking(p, root, s, query, next)
    ensures FoundReal(p, root, next)
  {
    var more := Candidates(p.rows[query.id], query, p);
    forall i | 0 <= i < |next.found|
      ensures Real(p, root, next.found[i])
    {
      if i < |s.found| {
        assert next.found[i] == s.found[i];
      } else {
        assert next.found[i] == more[i - |s.found|];
        CandidateIsReal(p, root, s, query, next, next.found[i]);
      }
    }
  }

  lemma CandidateIsFound(p: Provider, root: AccountId, s: Search, query: Query, next: Search, i: nat)
    requires Asking(p, root, s, query, next) && i < |p.rows[query.id]| && Relevant(p.rows[query.id][i], query)
    ensures Found(next, p.rows[query.id][i].externalId, query.level + p.rows[query.id][i].level)
  {
    var rows := p.rows[query.id];
    var c := Candidate(rows[i], query, p);
    CandidatesAre(rows, query, p, c);
    var j :| 0 <= j < |Candidates(rows, query, p)| && Candidates(rows, query, p)[j] == c;
    assert next.found[|s.found| + j] == c;
  }

  lemma AskKeepsRecorded(p: Provider, root: AccountId, s: Search, query: Query, next: Search)
    requires Asking(p, root, s, query, next)
    ensures Recorded(p, root, next)
  {
    var rows := p.rows[query.id];
    forall x, n | Found(s, x, n)
      ensures Found(next, x, n)
    {
      var i :| 0 <= i < |s.found| && s.found[i].externalId == x && s.found[i].level <= n;
      assert next.found[i] == s.found[i];
    }
    if query.id == root {
      assert p.HasSelf(root);
      var i :| 0 <= i < |rows| && rows[i].level == 0;
      assert p.RowValid(root, rows[i]);
      CandidateIsFound(p, root, s, query, next, i);
    }
    forall q, x | q in next.asked && Child(p, q, x) && (q == root || x != q)
      ensures Found(next, x, next.asked[q] + 1)
    {
      if q == query.id {
        var i :| 0 <= i < |rows| && rows[i].level == 1 && rows[i].externalId == x;
        CandidateIsFound(p, root, s, query, next, i);
      } else {
        assert Found(s, x, s.asked[q] + 1);
      }
    }
  }

  lemma RoundKeeps(p: Provider, root: AccountId, s: Search)
    requires p.Valid() && root in p.rows && Searching(p, root, s) && s.pending != []
    ensures forall i :: 0 <= i < |s.pending| ==> s.pending[i].0 in p.rows
    ensures Searching(p, root, Round(p, root, s))
  {
    var (id, level) := s.pending[0];
    if id in s.asked {
      SkipKeeps(p, root, s);
    } else {
      var next, query := Round(p, root, s), Query(root, id, level);
      assert s.asked[id := level].Keys == s.asked.Keys + {id};
      assert Asking(p, root, s, query, next);
      AskKeepsQueue(p, root, s, query, next);
      AskKeepsClosed(p, root, s, query, next);
      AskKeepsFound(p, root, s, query, next);
      AskKeepsRecorded(p, root, s, query, next);
    }
  }

  // ---------------------------------------------------------------------------
  // The end of a search
  // ---------------------------------------------------------------------------

  /** When nothing waits, every account below the root was recorded within its distance. */
  lemma {:induction false} EverythingFound(p: Provider, root: AccountId, s: Search, n: nat, x: AccountId)
    requires p.Valid() && root in p.rows && Searching(p, root, s) && s.pending == [] && Walk(p, root, n, x)
    ensures Found(s, x, n)
    decreases n
  {
    if n == 0 {
      NoShortcut(p, root, s, 0, root);
    } else {
      var m :| Walk(p, root, n - 1, m) && Child(p, m, x);
      ParentIsManager(p, m, x);
      if m != root && x == m {
        EverythingFound(p, root, s, n - 1, x);
        var i :| 0 <= i < |s.found| && s.found[i].externalId == x && s.found[i].level <= n - 1;
      } else {
        NoShortcut(p, root, s, n - 1, m);
        assert Found(s, x, s.asked[m] + 1);
        var i :| 0 <= i < |s.found| && s.found[i].externalId == x && s.found[i].level <= s.asked[m] + 1;
      }
    }
  }

  /** When nothing waits, the managers asked are those below the root, each asked at its shortest distance. */
  lemma AskedAtShortest(p: Provider, root: AccountId, s: Search, n: nat, x: AccountId)
    requires p.Valid() && root in p.rows && Searching(p, root, s) && s.pending == []
    requires Walk(p, root, n, x) && (x == root || x in p.managers)
    ensures x in s.asked && s.asked[x] <= n && Walk(p, root, s.asked[x], x)
  {
    NoShortcut(p, root, s, n, x);
  }
}
