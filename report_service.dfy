/**
 * The persistence service of the reporting feature: report templates and
 * the execution history, each kept as one JSON collection under its own
 * storage key. A read of a missing collection sees an empty one; a read
 * of a corrupt one either yields nothing (queries) or fails (updates).
 */
module ReportStorage {
  import opened Wrappers
  import opened Seqs
  import opened ReportTypes

  /** How many executions a user keeps. */
  const MaxExecutionsPerUser: nat := 100

  /** How many executions the history shows when no limit is given. */
  const DefaultHistoryLimit: int := 50

  // ---------------------------------------------------------------------
  // Selections
  // ---------------------------------------------------------------------

  /** `t => t.id === id`. */
  function TemplateIs(id: string): Template -> bool {
    (t: Template) => t.id == id
  }

  /** Templates a user may list: their own and every public one. */
  function Visible(userId: string): Template -> bool {
    (t: Template) => t.userId == userId || t.isPublic
  }

  /** Templates a delete leaves: all but the one with this id owned by this user. */
  function KeepsTemplate(templateId: string, userId: string): Template -> bool {
    (t: Template) => !(t.id == templateId && t.userId == userId)
  }

  /** Templates that belong to someone else. */
  function ForeignTemplate(userId: string): Template -> bool {
    (t: Template) => t.userId != userId
  }

  function OwnedBy(userId: string): Execution -> bool {
    (e: Execution) => e.userId == userId
  }

  function ForeignExecution(userId: string): Execution -> bool {
    (e: Execution) => e.userId != userId
  }

  /** Executions a delete leaves: all but the one with this id owned by this user. */
  function KeepsExecution(executionId: string, userId: string): Execution -> bool {
    (e: Execution) => !(e.id == executionId && e.userId == userId)
  }

  /**
   * The history order: newest first. A malformed time makes the difference
   * NaN, which the sort treats as a tie.
   */
  function NewestFirst(): (Execution, Execution) -> int {
    (a: Execution, b: Execution) =>
      if a.executedAt.At? && b.executedAt.At? then b.executedAt.ms - a.executedAt.ms else 0
  }

  /** `xs.slice(0, limit)`: a negative limit counts from the end. */
  function SliceTo<T>(xs: seq<T>, limit: int): (r: seq<T>)
    ensures r <= xs
    ensures limit >= 0 ==> |r| == if limit < |xs| then limit else |xs|
    ensures limit < 0 ==> |r| == if -limit < |xs| then |xs| + limit else 0
  {
    var end := if limit < 0 then |xs| + limit else limit;
    if end <= 0 then [] else if end >= |xs| then xs else xs[..end]
  }

  /** The ids of a sequence of executions, in order. */
  function Ids(es: seq<Execution>): (ids: seq<string>)
    ensures |ids| == |es| && forall i | 0 <= i < |es| :: ids[i] == es[i].id
  {
    if es == [] then [] else Ids(es[..|es| - 1]) + [es[|es| - 1].id]
  }

  /** `findIndex(t => t.id === templateId && t.userId === userId)`, as an optional index. */
  function FindOwned(ts: seq<Template>, templateId: string, userId: string): (i: Option<nat>)
    ensures i.Some? ==> i.value < |ts| && ts[i.value].id == templateId && ts[i.value].userId == userId
    ensures i.Some? ==> forall j | 0 <= j < i.value :: !(ts[j].id == templateId && ts[j].userId == userId)
    ensures i.None? <==> forall t | t in ts :: !(t.id == templateId && t.userId == userId)
  {
    if ts == [] then None
    else if ts[0].id == templateId && ts[0].userId == userId then Some(0)
    else
      match FindOwned(ts[1..], templateId, userId)
      case None => None
      case Some(j) => Some(j + 1)
  }

  /** `{...t, ...updates, updatedAt: now}`. */
  function Merge(t: Template, patch: TemplatePatch, now: int): (m: Template)
    ensures m.updatedAt == now
  {
    Template(
      patch.id.GetOr(t.id), patch.userId.GetOr(t.userId), patch.name.GetOr(t.name),
      patch.description.GetOr(t.description), patch.reportType.GetOr(t.reportType),
      patch.configuration.GetOr(t.configuration), patch.isPublic.GetOr(t.isPublic),
      patch.createdAt.GetOr(t.createdAt), now)
  }

  /** The record `saveExecution` adds: the draft with its new id and time. */
  function NewExecution(draft: ExecutionDraft, id: string, now: int): Execution {
    Execution(id, draft.templateId, draft.userId, draft.reportType, draft.resultCount, At(now), draft.exported)
  }

  // ---------------------------------------------------------------------
  // Execution retention
  // ---------------------------------------------------------------------

  /** The ids of the newest `MaxExecutionsPerUser` executions among `mine`. */
  function NewestIds(mine: seq<Execution>): seq<string> {
    Ids(SliceTo(InsertionSort(mine, NewestFirst()), MaxExecutionsPerUser))
  }

  /** The filter of the retention step: other users' executions, and this user's that are among the newest. */
  function Retained(userId: string, toKeep: seq<string>): Execution -> bool {
    (e: Execution) => e.userId != userId || e.id in toKeep
  }

  /**
   * What `saveExecution` stores, as written: the collection with the new
   * execution pushed; when the user then has more than 100, only their
   * newest 100 and everyone else's, followed by the new execution once
   * more.
   */
  function StoredAfterSave(all: seq<Execution>, n: Execution): seq<Execution> {
    var pushed := all + [n];
    var mine := Filter(pushed, OwnedBy(n.userId));
    if |mine| > MaxExecutionsPerUser then Filter(pushed, Retained(n.userId, NewestIds(mine))) + [n]
    else pushed
  }

  /** What the retention step evidently means to store: the pushed collection, trimmed to the user's newest 100. */
  function RetainLatest(all: seq<Execution>, n: Execution): seq<Execution> {
    var pushed := all + [n];
    var mine := Filter(pushed, OwnedBy(n.userId));
    if |mine| > MaxExecutionsPerUser then Filter(pushed, Retained(n.userId, NewestIds(mine)))
    else pushed
  }

  /** `n` is strictly newer than every stored execution of its user, all of which have a valid time. */
  ghost predicate Newest(all: seq<Execution>, n: Execution) {
    n.executedAt.At? &&
    forall e | e in all && e.userId == n.userId :: e.executedAt.At? && e.executedAt.ms < n.executedAt.ms
  }

  /** A strictly newest execution sorts first among its user's executions, so it is among the kept ids. */
  lemma NewestIsKept(all: seq<Execution>, n: Execution)
    requires Newest(all, n)
    ensures var mine := Filter(all + [n], OwnedBy(n.userId));
      n.id in NewestIds(mine)
  {
    var pushed := all + [n];
    var mine := Filter(pushed, OwnedBy(n.userId));
    var cmp := NewestFirst();
    FilterMember(pushed, OwnedBy(n.userId), n);
    forall y | y in mine && y != n ensures cmp(n, y) < 0 && cmp(y, n) >= 0 {
      FilterMember(pushed, OwnedBy(n.userId), y);
      assert y in all;
    }
    SortHead(mine, cmp, n);
    var kept := SliceTo(InsertionSort(mine, cmp), MaxExecutionsPerUser);
    assert kept[0] == n;
    assert Ids(kept)[0] == n.id;
  }

  /**
   * The retention step as written stores the newest execution twice once
   * the user has more than 100: it is among the newest 100 the filter
   * keeps, and it is appended again after them.
   */
  lemma SaveDuplicatesNewest(all: seq<Execution>, n: Execution)
    requires Newest(all, n)
    requires |Filter(all + [n], OwnedBy(n.userId))| > MaxExecutionsPerUser
    ensures multiset(StoredAfterSave(all, n))[n] >= 2
  {
    var pushed := all + [n];
    var mine := Filter(pushed, OwnedBy(n.userId));
    NewestIsKept(all, n);
    var keep := Retained(n.userId, NewestIds(mine));
    FilterMember(pushed, keep, n);
    assert n in Filter(pushed, keep);
    assert multiset(Filter(pushed, keep) + [n]) == multiset(Filter(pushed, keep)) + multiset{n};
  }

  /** Pushing an execution of `n`'s user leaves the other users' executions as they were. */
  lemma PushKeepsOthers(all: seq<Execution>, n: Execution)
    ensures Filter(all + [n], ForeignExecution(n.userId)) == Filter(all, ForeignExecution(n.userId))
  {
    FilterAppend(all, [n], ForeignExecution(n.userId));
    assert Filter([n], ForeignExecution(n.userId)) == [];
    assert Filter(all, ForeignExecution(n.userId)) + [] == Filter(all, ForeignExecution(n.userId));
  }

  /** The retention filter passes every execution of another user. */
  lemma RetainedKeepsOthers(pushed: seq<Execution>, userId: string, toKeep: seq<string>)
    ensures Filter(Filter(pushed, Retained(userId, toKeep)), ForeignExecution(userId)) == Filter(pushed, ForeignExecution(userId))
  {
    FilterThenFilter(pushed, Retained(userId, toKeep), ForeignExecution(userId), ForeignExecution(userId));
  }

  /** The retention step as written never touches other users' executions. */
  lemma SaveKeepsOthers(all: seq<Execution>, n: Execution)
    ensures Filter(StoredAfterSave(all, n), ForeignExecution(n.userId)) == Filter(all, ForeignExecution(n.userId))
  {
    var u := n.userId;
    var pushed := all + [n];
    var mine := Filter(pushed, OwnedBy(u));
    PushKeepsOthers(all, n);
    if |mine| > MaxExecutionsPerUser {
      var kept := Filter(pushed, Retained(u, NewestIds(mine)));
      RetainedKeepsOthers(pushed, u, NewestIds(mine));
      PushKeepsOthers(kept, n);
    }
  }

  /** The corrected retention never touches other users' executions either. */
  lemma RetainKeepsOthers(all: seq<Execution>, n: Execution)
    ensures Filter(RetainLatest(all, n), ForeignExecution(n.userId)) == Filter(all, ForeignExecution(n.userId))
  {
    var u := n.userId;
    var pushed := all + [n];
    var mine := Filter(pushed, OwnedBy(u));
    PushKeepsOthers(all, n);
    if |mine| > MaxExecutionsPerUser {
      RetainedKeepsOthers(pushed, u, NewestIds(mine));
    }
  }

  /** The corrected retention keeps a strictly newest execution exactly once. */
  lemma RetainKeepsNewestOnce(all: seq<Execution>, n: Execution)
    requires Newest(all, n)
    ensures multiset(RetainLatest(all, n))[n] == 1
  {
    var pushed := all + [n];
    var mine := Filter(pushed, OwnedBy(n.userId));
    assert n !in all;
    assert multiset(pushed)[n] == 1 by {
      assert multiset(pushed) == multiset(all) + multiset{n};
    }
    if |mine| > MaxExecutionsPerUser {
      NewestIsKept(all, n);
      FilterMultiset(pushed, Retained(n.userId, NewestIds(mine)), n);
    }
  }

  /** No two executions share an id. */
  ghost predicate DistinctIds(s: seq<Execution>) {
    forall i, j | 0 <= i < j < |s| :: s[i].id != s[j].id
  }

  /** The set of ids of some executions. */
  ghost function IdSet(s: seq<Execution>): set<string> {
    set e | e in s :: e.id
  }

  /** Filtering keeps distinct ids distinct. */
  lemma {:induction false} FilterDistinctIds(s: seq<Execution>, p: Execution -> bool)
    requires DistinctIds(s)
    ensures DistinctIds(Filter(s, p))
    decreases |s|
  {
    if s != [] {
      var s' := s[..|s| - 1];
      var x := s[|s| - 1];
      FilterDistinctIds(s', p);
      if p(x) {
        var f := Filter(s', p);
        forall k | 0 <= k < |f| ensures f[k].id != x.id {
          assert f[k] in f;
          FilterMember(s', p, f[k]);
          var m :| 0 <= m < |s'| && s'[m] == f[k];
          assert s[m] == f[k];
        }
      }
    }
  }

  /** The last of some executions with distinct ids has an id none of the others has. */
  lemma LastIdFresh(s: seq<Execution>)
    requires s != [] && DistinctIds(s)
    ensures DistinctIds(s[..|s| - 1]) && s[|s| - 1].id !in IdSet(s[..|s| - 1])
  {
    var s' := s[..|s| - 1];
    forall e | e in s' ensures e.id != s[|s| - 1].id {
      var m :| 0 <= m < |s'| && s'[m] == e;
      assert s[m] == e;
    }
  }

  lemma IdSetSnoc(s: seq<Execution>)
    requires s != []
    ensures IdSet(s) == IdSet(s[..|s| - 1]) + {s[|s| - 1].id}
  {
    assert s == s[..|s| - 1] + [s[|s| - 1]];
  }

  /** Executions with distinct ids are as many as their ids. */
  lemma {:induction false} DistinctIdsCard(s: seq<Execution>)
    requires DistinctIds(s)
    ensures |IdSet(s)| == |s|
    decreases |s|
  {
    if s != [] {
      LastIdFresh(s);
      IdSetSnoc(s);
      DistinctIdsCard(s[..|s| - 1]);
    }
  }

  /** The user's executions the retention filter keeps are those among theirs whose id is to be kept. */
  function OwnedAndKept(userId: string, toKeep: seq<string>): Execution -> bool {
    (e: Execution) => e.userId == userId && e.id in toKeep
  }

  function IdIn(toKeep: seq<string>): Execution -> bool {
    (e: Execution) => e.id in toKeep
  }

  lemma RetainedOwned(pushed: seq<Execution>, userId: string, toKeep: seq<string>)
    ensures Filter(Filter(pushed, Retained(userId, toKeep)), OwnedBy(userId)) ==
            Filter(Filter(pushed, OwnedBy(userId)), IdIn(toKeep))
  {
    FilterThenFilter(pushed, Retained(userId, toKeep), OwnedBy(userId), OwnedAndKept(userId, toKeep));
    FilterThenFilter(pushed, OwnedBy(userId), IdIn(toKeep), OwnedAndKept(userId, toKeep));
  }

  /** Executions with distinct ids, each carrying an id from `toKeep`, are no more than `toKeep` is long. */
  lemma KeptWithinIds(mine: seq<Execution>, toKeep: seq<string>)
    requires DistinctIds(mine)
    ensures |Filter(mine, IdIn(toKeep))| <= |toKeep|
  {
    var kept := Filter(mine, IdIn(toKeep));
    FilterDistinctIds(mine, IdIn(toKeep));
    DistinctIdsCard(kept);
    assert IdSet(kept) <= (set x | x in toKeep) by {
      forall e | e in kept ensures e.id in toKeep {
        FilterMember(mine, IdIn(toKeep), e);
      }
    }
    DistinctCardinality(toKeep);
    SubsetCard(IdSet(kept), set x | x in toKeep);
  }

  /**
   * The corrected retention keeps exactly the user's newest 100 when they
   * have more, and all of them otherwise, each once: with distinct ids,
   * the user's stored executions number `min(100, |mine|)` and still have
   * distinct ids.
   */
  lemma RetainKeepsMax(all: seq<Execution>, n: Execution)
    requires DistinctIds(Filter(all + [n], OwnedBy(n.userId)))
    ensures var mine := Filter(all + [n], OwnedBy(n.userId));
      Count(RetainLatest(all, n), OwnedBy(n.userId)) ==
        if |mine| > MaxExecutionsPerUser then MaxExecutionsPerUser else |mine|
    ensures DistinctIds(Filter(RetainLatest(all, n), OwnedBy(n.userId)))
  {
    var u := n.userId;
    var pushed := all + [n];
    var mine := Filter(pushed, OwnedBy(u));
    if |mine| > MaxExecutionsPerUser {
      var toKeep := NewestIds(mine);
      RetainedOwned(pushed, u, toKeep);
      KeptWithinIds(mine, toKeep);
      NewestIdsCover(mine);
      FilterDistinctIds(mine, IdIn(toKeep));
    }
  }

  /** With distinct ids and more than 100 executions, every one of the 100 newest ids selects an execution. */
  lemma NewestIdsCover(mine: seq<Execution>)
    requires DistinctIds(mine) && |mine| > MaxExecutionsPerUser
    ensures |Filter(mine, IdIn(NewestIds(mine)))| >= MaxExecutionsPerUser
  {
    var sorted := InsertionSort(mine, NewestFirst());
    SortPermutation(mine, NewestFirst());
    var kept := sorted[..MaxExecutionsPerUser];
    assert SliceTo(sorted, MaxExecutionsPerUser) == kept;
    var toKeep := Ids(kept);
    var selected := Filter(mine, IdIn(toKeep));
    SliceIdsCount(mine, sorted);
    assert IdSet(kept) <= IdSet(selected) by {
      forall e | e in kept ensures e.id in IdSet(selected) {
        var i :| 0 <= i < |kept| && kept[i] == e;
        assert toKeep[i] == e.id;
        assert e in multiset(sorted);
        FilterMember(mine, IdIn(toKeep), e);
      }
    }
    SubsetCard(IdSet(kept), IdSet(selected));
    IdSetCard(selected);
  }

  /** The first 100 of a reordering of executions with distinct ids carry 100 different ids. */
  lemma SliceIdsCount(mine: seq<Execution>, sorted: seq<Execution>)
    requires DistinctIds(mine) && multiset(sorted) == multiset(mine) && |sorted| > MaxExecutionsPerUser
    ensures |IdSet(sorted[..MaxExecutionsPerUser])| >= MaxExecutionsPerUser
  {
    var k := MaxExecutionsPerUser;
    var kept, rest := sorted[..k], sorted[k..];
    assert IdSet(sorted) == IdSet(mine) by {
      forall e ensures e in sorted <==> e in mine {
        assert e in sorted <==> e in multiset(sorted);
        assert e in mine <==> e in multiset(mine);
      }
    }
    DistinctIdsCard(mine);
    assert |sorted| == |mine| by { assert |multiset(sorted)| == |multiset(mine)|; }
    assert sorted == kept + rest;
    assert IdSet(sorted) <= IdSet(kept) + IdSet(rest);
    IdSetCard(rest);
    SubsetCard(IdSet(sorted), IdSet(kept) + IdSet(rest));
    UnionCard(IdSet(kept), IdSet(rest));
  }

  lemma UnionCard(a: set<string>, b: set<string>)
    ensures |a + b| <= |a| + |b|
  {
    assert a + b == a + (b - a);
    assert a * (b - a) == {};
    SubsetCard(b - a, b);
  }

  /** Some executions carry at most as many ids as there are of them. */
  lemma {:induction false} IdSetCard(s: seq<Execution>)
    ensures |IdSet(s)| <= |s|
    decreases |s|
  {
    if s != [] {
      IdSetSnoc(s);
      IdSetCard(s[..|s| - 1]);
    }
  }

  /**
   * The retention step as written leaves a user at most 100 different ids
   * when the new execution is strictly their newest: the kept ones carry
   * ids among the 100 newest, and so does the copy appended after them.
   */
  lemma SaveKeepsAtMostMaxIds(all: seq<Execution>, n: Execution)
    requires Newest(all, n)
    ensures |IdSet(Filter(StoredAfterSave(all, n), OwnedBy(n.userId)))| <= MaxExecutionsPerUser
  {
    var u := n.userId;
    var pushed := all + [n];
    var mine := Filter(pushed, OwnedBy(u));
    if |mine| > MaxExecutionsPerUser {
      var toKeep := NewestIds(mine);
      var kept := Filter(pushed, Retained(u, toKeep));
      FilterAppend(kept, [n], OwnedBy(u));
      assert Filter([n], OwnedBy(u)) == [n];
      RetainedOwned(pushed, u, toKeep);
      NewestIsKept(all, n);
      KeptIdsWithin(mine, toKeep, n);
    } else {
      IdSetCard(mine);
    }
  }

  /** The ids of the executions kept by id, followed by one whose id is also kept, are no more than the ids kept. */
  lemma KeptIdsWithin(mine: seq<Execution>, toKeep: seq<string>, n: Execution)
    requires n.id in toKeep
    ensures |IdSet(Filter(mine, IdIn(toKeep)) + [n])| <= |toKeep|
  {
    var stored := Filter(mine, IdIn(toKeep)) + [n];
    assert IdSet(stored) <= (set x | x in toKeep) by {
      forall e | e in stored ensures e.id in toKeep {
        if e != n {
          FilterMember(mine, IdIn(toKeep), e);
        }
      }
    }
    DistinctCardinality(toKeep);
    SubsetCard(IdSet(stored), set x | x in toKeep);
  }

  /** Executions that share an id are the same record (copies of one saved execution). */
  ghost predicate IdsIdentify(s: seq<Execution>) {
    forall a, b | a in s && b in s && a.id == b.id :: a == b
  }

  /**
   * Among executions with valid times whose ids identify them, none left
   * out of the 100 newest ids is newer than one among them.
   */
  lemma NewestIdsDominate(mine: seq<Execution>)
    requires forall e | e in mine :: e.executedAt.At?
    requires IdsIdentify(mine)
    ensures forall x, e | x in mine && e in mine && x.id !in NewestIds(mine) && e.id in NewestIds(mine) ::
      x.executedAt.ms <= e.executedAt.ms
  {
    SortNewestFirst(mine);
    var sorted := InsertionSort(mine, NewestFirst());
    var kept := SliceTo(sorted, MaxExecutionsPerUser);
    PrefixNewest(sorted, kept);
    forall x: Execution, e: Execution | x in mine && e in mine && x.id !in Ids(kept) && e.id in Ids(kept)
      ensures x.executedAt.ms <= e.executedAt.ms
    {
      assert x !in kept;
      var i :| 0 <= i < |Ids(kept)| && Ids(kept)[i] == e.id;
      assert kept[i] in multiset(mine) by { assert kept[i] == sorted[i]; }
      assert kept[i] == e;
      assert x in multiset(sorted) - multiset(kept);
    }
  }

  /**
   * The corrected retention drops only executions of the user that are no
   * newer than every execution of theirs it keeps.
   */
  lemma RetainDropsOnlyOlder(all: seq<Execution>, n: Execution)
    requires forall e | e in all + [n] && e.userId == n.userId :: e.executedAt.At?
    requires IdsIdentify(Filter(all + [n], OwnedBy(n.userId)))
    ensures forall x, e | x in all + [n] && x.userId == n.userId && x !in RetainLatest(all, n) &&
                          e in RetainLatest(all, n) && e.userId == n.userId ::
      x.executedAt.At? && e.executedAt.At? && x.executedAt.ms <= e.executedAt.ms
  {
    var u := n.userId;
    var pushed := all + [n];
    var mine := Filter(pushed, OwnedBy(u));
    if |mine| > MaxExecutionsPerUser {
      var toKeep := NewestIds(mine);
      MineValid(pushed, u);
      NewestIdsDominate(mine);
      forall x: Execution, e: Execution | x in pushed && x.userId == u && x !in RetainLatest(all, n) &&
                                          e in RetainLatest(all, n) && e.userId == u
        ensures x.executedAt.At? && e.executedAt.At? && x.executedAt.ms <= e.executedAt.ms
      {
        FilterMember(pushed, Retained(u, toKeep), x);
        FilterMember(pushed, Retained(u, toKeep), e);
        FilterMember(pushed, OwnedBy(u), x);
        FilterMember(pushed, OwnedBy(u), e);
      }
    }
  }

  /**
   * The retention step as written, too, drops only executions of the user
   * that are no newer than every execution of theirs it stores, when the
   * new execution is strictly their newest.
   */
  lemma SaveDropsOnlyOlder(all: seq<Execution>, n: Execution)
    requires Newest(all, n)
    requires IdsIdentify(Filter(all + [n], OwnedBy(n.userId)))
    ensures forall x, e | x in all + [n] && x.userId == n.userId && x !in StoredAfterSave(all, n) &&
                          e in StoredAfterSave(all, n) && e.userId == n.userId ::
      x.executedAt.At? && e.executedAt.At? && x.executedAt.ms <= e.executedAt.ms
  {
    var u := n.userId;
    var pushed := all + [n];
    var mine := Filter(pushed, OwnedBy(u));
    if |mine| > MaxExecutionsPerUser {
      var toKeep := NewestIds(mine);
      var kept := Filter(pushed, Retained(u, toKeep));
      MineValid(pushed, u);
      NewestIdsDominate(mine);
      forall x: Execution, e: Execution | x in pushed && x.userId == u && x !in kept + [n] &&
                                          e in kept + [n] && e.userId == u
        ensures x.executedAt.At? && e.executedAt.At? && x.executedAt.ms <= e.executedAt.ms
      {
        assert x in all;
        if e != n {
          assert e in kept;
          FilterMember(pushed, Retained(u, toKeep), x);
          FilterMember(pushed, Retained(u, toKeep), e);
          FilterMember(pushed, OwnedBy(u), x);
          FilterMember(pushed, OwnedBy(u), e);
        }
      }
    }
  }

  /** The user's executions carry valid times when every one pushed does. */
  lemma MineValid(pushed: seq<Execution>, userId: string)
    requires forall e | e in pushed && e.userId == userId :: e.executedAt.At?
    ensures forall e | e in Filter(pushed, OwnedBy(userId)) :: e.executedAt.At?
  {
    forall e | e in Filter(pushed, OwnedBy(userId)) ensures e.executedAt.At? {
      FilterMember(pushed, OwnedBy(userId), e);
    }
  }

  lemma SubsetCard(a: set<string>, b: set<string>)
    requires a <= b
    ensures |a| <= |b|
  {
    assert b == a + (b - a);
    assert a * (b - a) == {};
  }

  /**
   * The corrected retention leaves a user at most 100 executions, provided
   * their ids are distinct: each kept one carries a different id among the
   * 100 newest.
   */
  lemma RetainBound(all: seq<Execution>, n: Execution)
    requires DistinctIds(Filter(all + [n], OwnedBy(n.userId)))
    ensures Count(RetainLatest(all, n), OwnedBy(n.userId)) <= MaxExecutionsPerUser
  {
    var u := n.userId;
    var pushed := all + [n];
    var mine := Filter(pushed, OwnedBy(u));
    if |mine| > MaxExecutionsPerUser {
      var toKeep := NewestIds(mine);
      RetainedOwned(pushed, u, toKeep);
      KeptWithinIds(mine, toKeep);
    }
  }

  // ---------------------------------------------------------------------
  // The service
  // ---------------------------------------------------------------------

  /** `ReportService`: its state is the two storage keys it reads and writes. */
  class ReportService {
    var templates: Blob<Template>
    var executions: Blob<Execution>

    constructor(templates: Blob<Template>, executions: Blob<Execution>)
      ensures this.templates == templates && this.executions == executions
    {
      this.templates := templates;
      this.executions := executions;
    }

    /**
     * `getTemplates(userId)`: the user's own and the public templates, with
     * their stored multiplicity and in stored order: the i-th result is the
     * template at the i-th visible position of the collection.
     */
    function GetTemplates(userId: string): (ts: seq<Template>)
      reads this
      ensures forall t :: multiset(ts)[t] == if t.userId == userId || t.isPublic then multiset(ItemsOr(templates))[t] else 0
      ensures var all := ItemsOr(templates);
        var idx := FilterIndices(all, Visible(userId));
        |ts| == |idx| && forall i | 0 <= i < |ts| :: ts[i] == all[idx[i]]
    {
      var all := ItemsOr(templates);
      FilterCounts(all, Visible(userId));
      Filter(all, Visible(userId))
    }

    /** `getTemplate(id)`: the first template with that id, whoever owns it; none from a missing or corrupt collection. */
    function GetTemplate(id: string): (t: Option<Template>)
      reads this
      ensures t.Some? ==> t.value in ItemsOr(templates) && t.value.id == id
      ensures t.Some? ==> var all := ItemsOr(templates);
        exists i | 0 <= i < |all| :: all[i] == t.value && forall j | 0 <= j < i :: all[j].id != id
      ensures t.None? <==> forall x | x in ItemsOr(templates) :: x.id != id
    {
      Find(ItemsOr(templates), TemplateIs(id))
    }

    /**
     * `saveTemplate`: appends a private template; the clock is read twice,
     * once for `createdAt` and once for `updatedAt`, so the two stamps are
     * separate inputs. Fails on a corrupt collection and then changes nothing.
     */
    method SaveTemplate(userId: string, name: string, description: string, config: Config, id: string,
                        createdAt: int, updatedAt: int)
      returns (r: Result<Template, string>)
      modifies this
      ensures old(templates).Corrupt? ==> r == Failure("Failed to save template") && templates == old(templates)
      ensures !old(templates).Corrupt? ==>
        && r == Success(Template(id, userId, name, description, config.reportType, config, false, createdAt, updatedAt))
        && templates == Stored(ItemsOr(old(templates)) + [r.value])
      ensures executions == old(executions)
    {
      if templates.Corrupt? {
        return Failure("Failed to save template");
      }
      var allTemplates := ItemsOr(templates);
      var newTemplate := Template(id, userId, name, description, config.reportType, config, false, createdAt, updatedAt);
      allTemplates := allTemplates + [newTemplate];
      templates := Stored(allTemplates);
      return Success(newTemplate);
    }

    /**
     * `updateTemplate`: merges the patch into the first template with that
     * id owned by that user and stamps it `now`. A corrupt collection, an
     * unknown id or another owner all fail alike and change nothing.
     */
    method UpdateTemplate(templateId: string, userId: string, patch: TemplatePatch, now: int)
      returns (r: Result<Template, string>)
      modifies this
      ensures r.Failure? <==> old(templates).Corrupt? || FindOwned(ItemsOr(old(templates)), templateId, userId).None?
      ensures r.Failure? ==> r.error == "Failed to update template" && templates == old(templates)
      ensures r.Success? ==>
        var all := ItemsOr(old(templates));
        var i := FindOwned(all, templateId, userId).value;
        && r.value == Merge(all[i], patch, now)
        && templates == Stored(all[i := r.value])
      ensures executions == old(executions)
    {
      if templates.Corrupt? {
        return Failure("Failed to update template");
      }
      var allTemplates := ItemsOr(templates);
      var index := FindOwned(allTemplates, templateId, userId);
      if index.None? {
        return Failure("Failed to update template");
      }
      allTemplates := allTemplates[index.value := Merge(allTemplates[index.value], patch, now)];
      templates := Stored(allTemplates);
      return Success(allTemplates[index.value]);
    }

    /** `deleteTemplate`: drops the templates with that id owned by that user; fails on a corrupt collection. */
    method DeleteTemplate(templateId: string, userId: string) returns (r: Result<(), string>)
      modifies this
      ensures old(templates).Corrupt? ==> r == Failure("Failed to delete template") && templates == old(templates)
      ensures !old(templates).Corrupt? ==>
        r.Success? && templates == Stored(Filter(ItemsOr(old(templates)), KeepsTemplate(templateId, userId)))
      ensures executions == old(executions)
    {
      if templates.Corrupt? {
        return Failure("Failed to delete template");
      }
      templates := Stored(Filter(ItemsOr(templates), KeepsTemplate(templateId, userId)));
      return Success(());
    }

    /**
     * `getExecutions(userId, limit = 50)`: the user's executions, newest
     * first, cut by `slice(0, limit)`; none from a missing or corrupt
     * collection. It returns `limit` of them or all of them, whichever is
     * fewer, and every one of them when they fit.
     */
    function GetExecutions(userId: string, limit: int := DefaultHistoryLimit): (es: seq<Execution>)
      reads this
      ensures forall e | e in es :: e in ItemsOr(executions) && e.userId == userId
      ensures var n := Count(ItemsOr(executions), OwnedBy(userId));
        && (limit >= 0 ==> |es| == if limit < n then limit else n)
        && (limit < 0 ==> |es| == if -limit < n then n + limit else 0)
      ensures limit >= Count(ItemsOr(executions), OwnedBy(userId)) ==>
        multiset(es) == multiset(Filter(ItemsOr(executions), OwnedBy(userId)))
    {
      var mine := Filter(ItemsOr(executions), OwnedBy(userId));
      var sorted := InsertionSort(mine, NewestFirst());
      SortPermutation(mine, NewestFirst());
      assert |sorted| == |mine| by { assert |multiset(sorted)| == |multiset(mine)|; }
      OwnedMembers(ItemsOr(executions), userId, sorted);
      SliceTo(sorted, limit)
    }

    /**
     * `saveExecution`: stamps the draft with `id` and `now`, appends it and
     * applies the retention step as written; fails on a corrupt collection
     * and then changes nothing.
     */
    method SaveExecution(draft: ExecutionDraft, id: string, now: int) returns (r: Result<Execution, string>)
      modifies this
      ensures old(executions).Corrupt? ==> r == Failure("Failed to save execution") && executions == old(executions)
      ensures !old(executions).Corrupt? ==>
        && r == Success(NewExecution(draft, id, now))
        && executions == Stored(StoredAfterSave(ItemsOr(old(executions)), r.value))
      ensures templates == old(templates)
    {
      if executions.Corrupt? {
        return Failure("Failed to save execution");
      }
      var allExecutions := ItemsOr(executions);
      var newExecution := NewExecution(draft, id, now);
      allExecutions := allExecutions + [newExecution];
      var userExecutions := Filter(allExecutions, OwnedBy(draft.userId));
      if |userExecutions| > MaxExecutionsPerUser {
        var sorted := InsertionSort(userExecutions, NewestFirst());
        var toKeep := Ids(SliceTo(sorted, MaxExecutionsPerUser));
        var filtered := Filter(allExecutions, Retained(draft.userId, toKeep));
        executions := Stored(filtered + [newExecution]);
      } else {
        executions := Stored(allExecutions);
      }
      return Success(newExecution);
    }

    /** `deleteExecution`: drops the executions with that id owned by that user; fails on a corrupt collection. */
    method DeleteExecution(executionId: string, userId: string) returns (r: Result<(), string>)
      modifies this
      ensures old(executions).Corrupt? ==> r == Failure("Failed to delete execution") && executions == old(executions)
      ensures !old(executions).Corrupt? ==>
        r.Success? && executions == Stored(Filter(ItemsOr(old(executions)), KeepsExecution(executionId, userId)))
      ensures templates == old(templates)
    {
      if executions.Corrupt? {
        return Failure("Failed to delete execution");
      }
      executions := Stored(Filter(ItemsOr(executions), KeepsExecution(executionId, userId)));
      return Success(());
    }

    /**
     * `clearUserData`: drops the user's templates, then the user's
     * executions. Errors are swallowed: a corrupt template collection stops
     * it before anything changes, a corrupt execution collection after the
     * templates were cleared.
     */
    method ClearUserData(userId: string)
      modifies this
      ensures templates == if old(templates).Corrupt? then old(templates) else Stored(Filter(ItemsOr(old(templates)), ForeignTemplate(userId)))
      ensures executions ==
        if old(templates).Corrupt? || old(executions).Corrupt? then old(executions)
        else Stored(Filter(ItemsOr(old(executions)), ForeignExecution(userId)))
    {
      if templates.Corrupt? {
        return;
      }
      templates := Stored(Filter(ItemsOr(templates), ForeignTemplate(userId)));
      if executions.Corrupt? {
        return;
      }
      executions := Stored(Filter(ItemsOr(executions), ForeignExecution(userId)));
    }
  }

  // ---------------------------------------------------------------------
  // Helpers and properties of the service's state
  // ---------------------------------------------------------------------

  lemma FilterCounts<T>(s: seq<T>, p: T -> bool)
    ensures forall x :: multiset(Filter(s, p))[x] == if p(x) then multiset(s)[x] else 0
  {
    forall x ensures multiset(Filter(s, p))[x] == if p(x) then multiset(s)[x] else 0 {
      FilterMultiset(s, p, x);
    }
  }

  lemma OwnedMembers(all: seq<Execution>, userId: string, sorted: seq<Execution>)
    requires multiset(sorted) == multiset(Filter(all, OwnedBy(userId)))
    ensures forall e | e in sorted :: e in all && e.userId == userId
  {
    forall e | e in sorted ensures e in all && e.userId == userId {
      assert e in multiset(Filter(all, OwnedBy(userId)));
      FilterMember(all, OwnedBy(userId), e);
    }
  }

  /** Deleting a template removes exactly that user's template with that id: every other template stays, with its multiplicity. */
  lemma DeleteTemplateExact(all: seq<Template>, templateId: string, userId: string)
    ensures forall t :: multiset(Filter(all, KeepsTemplate(templateId, userId)))[t] ==
                        if t.id == templateId && t.userId == userId then 0 else multiset(all)[t]
  {
    FilterCounts(all, KeepsTemplate(templateId, userId));
  }

  /** Only the owner can delete: a template of someone else survives a delete by id. */
  lemma DeleteNeedsOwner(all: seq<Template>, templateId: string, userId: string, t: Template)
    requires t in all && t.userId != userId
    ensures t in Filter(all, KeepsTemplate(templateId, userId))
  {
    FilterMember(all, KeepsTemplate(templateId, userId), t);
  }

  /** Updating touches one template, owned by the caller; every other position keeps its template. */
  lemma UpdateTouchesOne(all: seq<Template>, templateId: string, userId: string, patch: TemplatePatch, now: int)
    requires FindOwned(all, templateId, userId).Some?
    ensures var i := FindOwned(all, templateId, userId).value;
      var after := all[i := Merge(all[i], patch, now)];
      && |after| == |all| && all[i].userId == userId
      && (forall j | 0 <= j < |all| && j != i :: after[j] == all[j])
      && (forall j | 0 <= j < |all| && all[j].userId != userId :: after[j] == all[j])
  {
  }

  /** An empty patch only refreshes `updatedAt`. */
  lemma EmptyPatchTouchesOnlyStamp(t: Template, now: int)
    ensures Merge(t, TemplatePatch(None, None, None, None, None, None, None, None, None), now) == t.(updatedAt := now)
  {
  }

  /** A freshly saved template is private: listing shows it to its owner and to no other user. */
  lemma SavedTemplateListed(all: seq<Template>, t: Template, userId: string)
    requires t.userId == userId && !t.isPublic
    ensures t in Filter(all + [t], Visible(userId))
    ensures forall other | other != userId :: t !in Filter(all + [t], Visible(other))
  {
    FilterMember(all + [t], Visible(userId), t);
    forall other | other != userId ensures t !in Filter(all + [t], Visible(other)) {
      FilterMember(all + [t], Visible(other), t);
    }
  }

  /** With valid times, the history is newest first. */
  lemma HistoryNewestFirst(all: seq<Execution>, userId: string, limit: int)
    requires forall e | e in all && e.userId == userId :: e.executedAt.At?
    ensures var mine := Filter(all, OwnedBy(userId));
      var es := SliceTo(InsertionSort(mine, NewestFirst()), limit);
      forall i, j | 0 <= i < j < |es| ::
        es[i].executedAt.At? && es[j].executedAt.At? && es[i].executedAt.ms >= es[j].executedAt.ms
  {
    var mine := Filter(all, OwnedBy(userId));
    MineValid(all, userId);
    SortNewestFirst(mine);
    var sorted := InsertionSort(mine, NewestFirst());
    PrefixOrdered(sorted, SliceTo(sorted, limit));
  }

  /** Sorting executions with valid times newest first yields them all, in that order. */
  lemma SortNewestFirst(mine: seq<Execution>)
    requires forall e | e in mine :: e.executedAt.At?
    ensures var sorted := InsertionSort(mine, NewestFirst());
      && SortedBy(sorted, NewestFirst()) && multiset(sorted) == multiset(mine)
      && forall e | e in multiset(sorted) :: e.executedAt.At?
  {
    NewestFirstPreorder(multiset(mine));
    SortSorted(mine, NewestFirst());
    SortPermutation(mine, NewestFirst());
  }

  /** A prefix of a newest-first sequence with valid times is itself newest first. */
  lemma PrefixOrdered(sorted: seq<Execution>, es: seq<Execution>)
    requires SortedBy(sorted, NewestFirst()) && es <= sorted
    requires forall e | e in multiset(sorted) :: e.executedAt.At?
    ensures forall i, j | 0 <= i < j < |es| ::
      es[i].executedAt.At? && es[j].executedAt.At? && es[i].executedAt.ms >= es[j].executedAt.ms
  {
    forall i, j | 0 <= i < j < |es|
      ensures es[i].executedAt.At? && es[j].executedAt.At? && es[i].executedAt.ms >= es[j].executedAt.ms
    {
      assert es[i] == sorted[i] && es[j] == sorted[j];
      assert NewestFirst()(sorted[i], sorted[j]) <= 0;
      assert sorted[i] in multiset(sorted) && sorted[j] in multiset(sorted);
    }
  }

  /**
   * With valid times, the history leaves out only executions that are no
   * newer than every execution it returns.
   */
  lemma HistoryKeepsNewest(all: seq<Execution>, userId: string, limit: int)
    requires forall e | e in all && e.userId == userId :: e.executedAt.At?
    ensures var mine := Filter(all, OwnedBy(userId));
      var es := SliceTo(InsertionSort(mine, NewestFirst()), limit);
      forall x, e | x in multiset(mine) - multiset(es) && e in es ::
        x.executedAt.At? && e.executedAt.At? && x.executedAt.ms <= e.executedAt.ms
  {
    var mine := Filter(all, OwnedBy(userId));
    MineValid(all, userId);
    SortNewestFirst(mine);
    var sorted := InsertionSort(mine, NewestFirst());
    PrefixNewest(sorted, SliceTo(sorted, limit));
  }

  /** A prefix of a newest-first sequence with valid times holds the newest of its executions. */
  lemma PrefixNewest(sorted: seq<Execution>, es: seq<Execution>)
    requires SortedBy(sorted, NewestFirst()) && es <= sorted
    requires forall e | e in multiset(sorted) :: e.executedAt.At?
    ensures forall x, e | x in multiset(sorted) - multiset(es) && e in es ::
      x.executedAt.At? && e.executedAt.At? && x.executedAt.ms <= e.executedAt.ms
  {
    var cmp := NewestFirst();
    assert es == sorted[..|es|];
    PrefixDominates(sorted, cmp, |es|);
    forall x: Execution, e: Execution | x in multiset(sorted) - multiset(es) && e in es
      ensures x.executedAt.At? && e.executedAt.At? && x.executedAt.ms <= e.executedAt.ms
    {
      var i :| 0 <= i < |es| && es[i] == e;
      assert cmp(sorted[i], x) <= 0;
      assert e in sorted;
    }
  }

  /** On executions with valid times the history order is a total preorder. */
  lemma NewestFirstPreorder(E: multiset<Execution>)
    requires forall e | e in E :: e.executedAt.At?
    ensures TotalPreorderOn(NewestFirst(), E)
  {
  }

  /** After clearing, the user's history is empty and only other users' templates remain. */
  lemma ClearedUserHasNothing(ts: seq<Template>, es: seq<Execution>, userId: string)
    ensures Filter(Filter(es, ForeignExecution(userId)), OwnedBy(userId)) == []
    ensures forall t | t in Filter(ts, ForeignTemplate(userId)) :: t.userId != userId
  {
    var f := Filter(es, ForeignExecution(userId));
    forall i | 0 <= i < |f| ensures !OwnedBy(userId)(f[i]) {
      assert f[i] in f;
      FilterMember(es, ForeignExecution(userId), f[i]);
    }
    FilterNone(f, OwnedBy(userId));
    forall t | t in Filter(ts, ForeignTemplate(userId)) ensures t.userId != userId {
      FilterMember(ts, ForeignTemplate(userId), t);
    }
  }
}
