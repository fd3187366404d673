/**
 * Why the browser may patch its cache instead of refetching: when the
 * cached list equals what `GET /tasks` returned, applying a confirmed
 * mutation's patch yields exactly what `GET /tasks` would return next.
 *
 * - create: the server appends a row stamped `now`; if the clock has not
 *   gone backwards, that row sorts last, where the client appends it;
 * - update: the server retitles the one row with that id; the client
 *   replaces the entry with that id by the returned row;
 * - delete: the server drops the user's row with that id; the client
 *   filters that id out.
 */
module CacheConsistency {
  import opened Wrappers
  import opened Seqs
  import opened TaskModel
  import opened TaskRepository
  import opened TaskUsecase
  import TaskCache

  // ----- ORDER BY commutes with the statements -----

  /** A sorted sequence stays sorted behind an element no later than all of it. */
  lemma SortedCons(h: Task, t: seq<Task>)
    requires SortedByCreated(t)
    requires forall k :: 0 <= k < |t| ==> h.createdAt <= t[k].createdAt
    ensures SortedByCreated([h] + t)
  {
    var r := [h] + t;
    forall i, j | 0 <= i < j < |r| ensures r[i].createdAt <= r[j].createdAt {
      assert r[j] == t[j - 1];
      if 0 < i {
        assert r[i] == t[i - 1];
      }
    }
  }

  /** Sortedness survives selection. */
  lemma {:induction false} FilterKeepsSorted(s: seq<Task>, p: Task -> bool)
    requires SortedByCreated(s)
    ensures SortedByCreated(Filter(s, p))
  {
    if s != [] {
      var tail := s[1..];
      assert s == [s[0]] + tail;
      assert SortedByCreated(tail);
      FilterKeepsSorted(tail, p);
      FilterCons(s[0], tail, p);
      var ft := Filter(tail, p);
      if p(s[0]) {
        forall k | 0 <= k < |ft| ensures s[0].createdAt <= ft[k].createdAt {
          assert ft[k] in tail;
          HeadIsEarliest(s, ft[k]);
        }
        SortedCons(s[0], ft);
      }
    }
  }

  /** Sorting a sequence with a known first element. */
  lemma SortCons(x: Task, s: seq<Task>)
    ensures SortByCreated([x] + s) == InsertByCreated(x, SortByCreated(s))
  {
    assert ([x] + s)[0] == x;
    assert ([x] + s)[1..] == s;
  }

  /** Inserting something no later than the head puts it in front. */
  lemma InsertAtHead(x: Task, h: Task, s: seq<Task>)
    requires x.createdAt <= h.createdAt
    ensures InsertByCreated(x, [h] + s) == [x] + ([h] + s)
  {
    assert ([h] + s)[0] == h;
  }

  /** Inserting something later than the head goes past the head. */
  lemma InsertPastHead(x: Task, h: Task, s: seq<Task>)
    requires h.createdAt < x.createdAt
    ensures InsertByCreated(x, [h] + s) == [h] + InsertByCreated(x, s)
  {
    assert ([h] + s)[0] == h;
    assert ([h] + s)[1..] == s;
  }

  /** Every element of a sorted sequence is created no earlier than its head. */
  lemma HeadIsEarliest(t: seq<Task>, y: Task)
    requires SortedByCreated(t) && t != [] && y in t
    ensures t[0].createdAt <= y.createdAt
  {
    var j :| 0 <= j < |t| && t[j] == y;
  }

  /** Inserting then selecting is selecting then inserting (what passes). */
  lemma {:induction false} InsertThenFilter(x: Task, t: seq<Task>, p: Task -> bool)
    requires SortedByCreated(t)
    ensures Filter(InsertByCreated(x, t), p) == if p(x) then InsertByCreated(x, Filter(t, p)) else Filter(t, p)
  {
    if t == [] {
      assert InsertByCreated(x, t) == [x] + [];
      FilterCons(x, [], p);
    } else if x.createdAt <= t[0].createdAt {
      assert InsertByCreated(x, t) == [x] + t;
      FilterCons(x, t, p);
      var ft := Filter(t, p);
      if p(x) && ft != [] {
        assert ft[0] in t;
        HeadIsEarliest(t, ft[0]);
        assert InsertByCreated(x, ft) == [x] + ft;
      }
    } else {
      var tail := t[1..];
      assert t == [t[0]] + tail;
      assert InsertByCreated(x, t) == [t[0]] + InsertByCreated(x, tail);
      assert SortedByCreated(tail);
      InsertThenFilter(x, tail, p);
      FilterCons(t[0], InsertByCreated(x, tail), p);
      FilterCons(t[0], tail, p);
      if p(x) && p(t[0]) {
        InsertPastHead(x, t[0], Filter(tail, p));
      }
    }
  }

  /** Sorting commutes with selection: `ORDER BY` after a WHERE clause. */
  lemma {:induction false} SortThenFilter(s: seq<Task>, p: Task -> bool)
    ensures SortByCreated(Filter(s, p)) == Filter(SortByCreated(s), p)
  {
    if s != [] {
      var tail := s[1..];
      assert s == [s[0]] + tail;
      SortCons(s[0], tail);
      SortThenFilter(tail, p);
      InsertThenFilter(s[0], SortByCreated(tail), p);
      FilterCons(s[0], tail, p);
      if p(s[0]) {
        SortCons(s[0], Filter(tail, p));
      }
    }
  }

  /** A row update that keeps `created_at` commutes with insertion. */
  lemma {:induction false} InsertThenMap(x: Task, t: seq<Task>, f: Task -> Task)
    requires forall y :: f(y).createdAt == y.createdAt
    ensures Map(InsertByCreated(x, t), f) == InsertByCreated(f(x), Map(t, f))
  {
    if t == [] {
      assert InsertByCreated(x, t) == [x] + [];
      MapCons(x, [], f);
      assert InsertByCreated(f(x), []) == [f(x)] + [];
    } else {
      var h, rest := t[0], t[1..];
      assert t == [h] + rest;
      MapCons(h, rest, f);
      if x.createdAt > h.createdAt {
        InsertPastHead(x, h, rest);
        MapCons(h, InsertByCreated(x, rest), f);
        InsertThenMap(x, rest, f);
        InsertPastHead(f(x), f(h), Map(rest, f));
      } else {
        InsertAtHead(x, h, rest);
        MapCons(x, t, f);
        InsertAtHead(f(x), f(h), Map(rest, f));
      }
    }
  }

  /** Sorting commutes with an update that keeps `created_at`. */
  lemma {:induction false} SortThenMap(s: seq<Task>, f: Task -> Task)
    requires forall y :: f(y).createdAt == y.createdAt
    ensures SortByCreated(Map(s, f)) == Map(SortByCreated(s), f)
  {
    if s != [] {
      SortThenMap(s[1..], f);
      InsertThenMap(s[0], SortByCreated(s[1..]), f);
      var ms := Map(s, f);
      assert ms[0] == f(s[0]) && ms[1..] == Map(s[1..], f);
    }
  }

  /** Inserting an element no later than the last one keeps that last one last. */
  lemma {:induction false} InsertBeforeLast(x: Task, t: seq<Task>, last: Task)
    requires x.createdAt <= last.createdAt
    ensures InsertByCreated(x, t + [last]) == InsertByCreated(x, t) + [last]
  {
    if t == [] {
      assert t + [last] == [last] + [];
      InsertAtHead(x, last, []);
      assert InsertByCreated(x, t) == [x] + [];
    } else {
      var h, rest := t[0], t[1..];
      assert t == [h] + rest;
      assert t + [last] == [h] + (rest + [last]);
      if x.createdAt > h.createdAt {
        InsertPastHead(x, h, rest + [last]);
        InsertPastHead(x, h, rest);
        InsertBeforeLast(x, rest, last);
        var ir := InsertByCreated(x, rest);
        assert [h] + (ir + [last]) == ([h] + ir) + [last];
      } else {
        InsertAtHead(x, h, rest + [last]);
        InsertAtHead(x, h, rest);
        assert [x] + ([h] + (rest + [last])) == ([x] + ([h] + rest)) + [last];
      }
    }
  }

  /** A row created no earlier than every other sorts last. */
  lemma {:induction false} SortAppendLatest(s: seq<Task>, last: Task)
    requires forall y :: y in s ==> y.createdAt <= last.createdAt
    ensures SortByCreated(s + [last]) == SortByCreated(s) + [last]
  {
    if s == [] {
      assert [] + [last] == [last];
      assert [last][1..] == [];
    } else {
      assert (s + [last])[0] == s[0];
      assert (s + [last])[1..] == s[1..] + [last];
      SortAppendLatest(s[1..], last);
      InsertBeforeLast(s[0], SortByCreated(s[1..]), last);
    }
  }

  // ----- the cache stays in step with the server -----

  /** Appending a row adds it to its owner's rows only. */
  lemma OwnedAppend(rows: seq<Task>, row: Task, v: nat)
    ensures Owned(rows + [row], v) == if row.userId == v then Owned(rows, v) + [row] else Owned(rows, v)
  {
    FilterConcat(rows, [row], OwnedBy(v));
    FilterCons(row, [], OwnedBy(v));
    assert [row] + [] == [row];
  }

  /** After a create, the server's list is the old list with the new row appended,
      which is the client's patch. */
  lemma CreateKeepsCacheInStep(rows: seq<Task>, row: Task)
    requires forall t :: t in rows ==> t.createdAt <= row.createdAt
    ensures TaskList(rows + [row], row.userId) == TaskList(rows, row.userId) + [ToResponse(row)]
  {
    var u := row.userId;
    OwnedAppend(rows, row, u);
    var owned := Owned(rows, u);
    forall y | y in owned ensures y.createdAt <= row.createdAt {
      var j :| 0 <= j < |owned| && owned[j] == y;
    }
    SortAppendLatest(owned, row);
    MapConcat(SortByCreated(owned), [row], ToResponse);
  }

  /** A create leaves every other user's list as it was. */
  lemma CreateLeavesOthers(rows: seq<Task>, row: Task, v: nat)
    requires v != row.userId
    ensures TaskList(rows + [row], v) == TaskList(rows, v)
  {
    OwnedAppend(rows, row, v);
  }

  /** The UPDATE retitles, among the user's rows, exactly its target. */
  lemma OwnedRetitled(rows: seq<Task>, userId: nat, taskId: nat, title: string, now: int)
    ensures Owned(Retitled(rows, userId, taskId, 0, title, now), userId)
      == Map(Owned(rows, userId), RetitleTargets(userId, taskId, 0, title, now))
  {
    FilterMap(rows, RetitleTargets(userId, taskId, 0, title, now), OwnedBy(userId), OwnedBy(userId));
  }

  /** On rows of the user, retitling the target then projecting equals
      projecting then replacing the entry with the target's id. */
  lemma RetitleIsReplace(rows: seq<Task>, userId: nat, taskId: nat, title: string, now: int, row: Task, sel: seq<Task>)
    requires UniqueIds(rows) && Lookup(rows, userId, taskId) == Some(row)
    requires forall t :: t in sel ==> t in rows && t.userId == userId
    ensures Map(Map(sel, RetitleTargets(userId, taskId, 0, title, now)), ToResponse)
      == TaskCache.ReplaceById(Map(sel, ToResponse), taskId, ToResponse(Retitle(row, title, now)))
  {
    var f := RetitleTargets(userId, taskId, 0, title, now);
    var lhs := Map(Map(sel, f), ToResponse);
    var rhs := TaskCache.ReplaceById(Map(sel, ToResponse), taskId, ToResponse(Retitle(row, title, now)));
    forall i | 0 <= i < |sel| ensures lhs[i] == rhs[i] {
      var t := sel[i];
      assert t in sel;
      if t.id == taskId {
        var j :| 0 <= j < |rows| && rows[j] == t;
        UpdateTargetIsLookup(rows, userId, taskId, 0, j);
      }
    }
  }

  /** After an update of row `row`, the server's list is the old list with
      that entry replaced by the returned row: the client's patch. */
  lemma UpdateKeepsCacheInStep(rows: seq<Task>, userId: nat, taskId: nat, title: string, now: int, row: Task)
    requires UniqueIds(rows) && Lookup(rows, userId, taskId) == Some(row)
    ensures TaskList(Retitled(rows, userId, taskId, 0, title, now), userId)
      == TaskCache.ReplaceById(TaskList(rows, userId), taskId, ToResponse(Retitle(row, title, now)))
  {
    var f := RetitleTargets(userId, taskId, 0, title, now);
    var owned := Owned(rows, userId);
    OwnedRetitled(rows, userId, taskId, title, now);
    SortThenMap(owned, f);
    var sorted := SortByCreated(owned);
    OwnedSortedMembers(rows, userId);
    RetitleIsReplace(rows, userId, taskId, title, now, row, sorted);
  }

  /** After a delete, the server's list is the old list without that id: the client's patch. */
  lemma DeleteKeepsCacheInStep(rows: seq<Task>, userId: nat, taskId: nat)
    ensures TaskList(Deleted(rows, userId, taskId), userId)
      == TaskCache.RemoveById(TaskList(rows, userId), taskId)
  {
    var other: Task -> bool := (t: Task) => t.id != taskId;
    var both: Task -> bool := (t: Task) => t.userId == userId && t.id != taskId;
    FilterFilter(rows, Survives(userId, taskId), OwnedBy(userId), both);
    FilterFilter(rows, OwnedBy(userId), other, both);
    var owned := Owned(rows, userId);
    assert Owned(Deleted(rows, userId, taskId), userId) == Filter(owned, other);
    SortThenFilter(owned, other);
    FilterMap(SortByCreated(owned), ToResponse, TaskCache.IdIsNot(taskId), other);
  }
}
