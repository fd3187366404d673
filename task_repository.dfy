/**
 * The task repository over GORM, modelled as an in-memory table. Every
 * operation is the WHERE clause it issues: a user sees, updates and deletes
 * only rows whose `user_id` is theirs, and an UPDATE or DELETE that touches
 * no row becomes the error "object does not exist".
 *
 * A failure reported by the database driver is the parameter `fault`; the
 * clock GORM reads for `created_at`/`updated_at` is the parameter `now`.
 */
module TaskRepository {
  import opened Wrappers
  import opened Seqs
  import opened TaskModel

  const ObjectDoesNotExist := "object does not exist"
  /** GORM's `ErrRecordNotFound`, returned by `First` when no row matches. */
  const RecordNotFound := "record not found"

  // ----- ORDER BY created_at -----

  ghost predicate SortedByCreated(s: seq<Task>)
  {
    forall i, j :: 0 <= i < j < |s| ==> s[i].createdAt <= s[j].createdAt
  }

  /** Inserts `x` before the first element created no earlier than it. */
  function InsertByCreated(x: Task, s: seq<Task>): (r: seq<Task>)
    ensures |r| == |s| + 1
  {
    if s == [] || x.createdAt <= s[0].createdAt then [x] + s
    else [s[0]] + InsertByCreated(x, s[1..])
  }

  /** An insertion adds exactly the inserted element. */
  lemma {:induction false} InsertPermutes(x: Task, s: seq<Task>)
    ensures multiset(InsertByCreated(x, s)) == multiset(s) + multiset{x}
  {
    if s != [] && s[0].createdAt < x.createdAt {
      InsertPermutes(x, s[1..]);
      assert s == [s[0]] + s[1..];
    }
  }

  /** Every element of an insertion is the inserted one or came from the sequence. */
  lemma InsertedFrom(x: Task, s: seq<Task>, k: nat)
    requires k < |InsertByCreated(x, s)|
    ensures InsertByCreated(x, s)[k] == x || InsertByCreated(x, s)[k] in s
  {
    var r := InsertByCreated(x, s);
    InsertPermutes(x, s);
    assert r[k] in multiset(r);
  }

  /** Inserting into a sorted sequence keeps it sorted. */
  lemma {:induction false} InsertSorted(x: Task, s: seq<Task>)
    requires SortedByCreated(s)
    ensures SortedByCreated(InsertByCreated(x, s))
  {
    if s == [] || x.createdAt <= s[0].createdAt {
      assert forall k :: 0 <= k < |s| ==> s[0].createdAt <= s[k].createdAt;
    } else {
      var rest := InsertByCreated(x, s[1..]);
      InsertSorted(x, s[1..]);
      forall k | 0 <= k < |rest| ensures s[0].createdAt <= rest[k].createdAt {
        InsertedFrom(x, s[1..], k);
      }
    }
  }

  /**
   * The order `ORDER BY created_at` returns: a stable insertion sort, so rows
   * created at the same instant keep their table order.
   */
  function SortByCreated(s: seq<Task>): (r: seq<Task>)
    ensures |r| == |s|
    ensures SortedByCreated(r)
    ensures multiset(r) == multiset(s)
  {
    if s == [] then []
    else
      assert s == [s[0]] + s[1..];
      InsertSorted(s[0], SortByCreated(s[1..]));
      InsertPermutes(s[0], SortByCreated(s[1..]));
      InsertByCreated(s[0], SortByCreated(s[1..]))
  }

  // ----- WHERE clauses -----

  /** `user_id = userId` */
  function OwnedBy(userId: nat): Task -> bool
  {
    (t: Task) => t.userId == userId
  }

  /** The rows of one user, in table order. */
  function Owned(rows: seq<Task>, userId: nat): (r: seq<Task>)
    ensures |r| <= |rows|
    ensures forall i :: 0 <= i < |r| ==> r[i] in rows && r[i].userId == userId
    ensures forall i :: 0 <= i < |rows| && rows[i].userId == userId ==> rows[i] in r
  {
    Filter(rows, OwnedBy(userId))
  }

  /** The answer to `GetAllTasks`: the user's rows, oldest first. */
  function OwnedSorted(rows: seq<Task>, userId: nat): (r: seq<Task>)
    ensures |r| == |Owned(rows, userId)|
    ensures SortedByCreated(r)
    ensures multiset(r) == multiset(Owned(rows, userId))
  {
    SortByCreated(Owned(rows, userId))
  }

  /** `GetAllTasks` yields exactly the user's rows. */
  lemma OwnedSortedMembers(rows: seq<Task>, userId: nat)
    ensures forall t :: t in OwnedSorted(rows, userId) <==> t in rows && t.userId == userId
  {
    var owned := Owned(rows, userId);
    var r := OwnedSorted(rows, userId);
    forall t ensures t in r <==> t in owned {
      assert t in r <==> t in multiset(r);
      assert t in owned <==> t in multiset(owned);
    }
    forall t | t in rows && t.userId == userId ensures t in owned {
      var j :| 0 <= j < |rows| && rows[j] == t;
    }
    forall t | t in owned ensures t in rows && t.userId == userId {
      var j :| 0 <= j < |owned| && owned[j] == t;
    }
  }

  /** `WHERE user_id = userId` plus `First(task, taskId)`: the user's row with that id. */
  function Lookup(rows: seq<Task>, userId: nat, taskId: nat): (r: Option<Task>)
    ensures r.Some? ==> r.value in rows && r.value.id == taskId && r.value.userId == userId
    ensures r.None? ==> forall t :: t in rows ==> !(t.id == taskId && t.userId == userId)
  {
    if rows == [] then None
    else if rows[0].id == taskId && rows[0].userId == userId then Some(rows[0])
    else
      assert forall t :: t in rows ==> t == rows[0] || t in rows[1..];
      Lookup(rows[1..], userId, taskId)
  }

  /**
   * The rows `UpdateTask` touches: `id = taskId AND user_id = userId`, and, when
   * the model passed to `db.Model` carries a non-zero primary key `modelId`,
   * also `id = modelId`, which GORM adds on its own.
   */
  predicate IsUpdateTarget(t: Task, userId: nat, taskId: nat, modelId: nat)
  {
    t.id == taskId && t.userId == userId && (modelId == 0 || t.id == modelId)
  }

  /** A row after `UPDATE ... SET title = title` at time `now`. */
  function Retitle(t: Task, title: string, now: int): Task
  {
    t.(title := title, updatedAt := now)
  }

  function RetitleTargets(userId: nat, taskId: nat, modelId: nat, title: string, now: int): Task -> Task
  {
    (t: Task) => if IsUpdateTarget(t, userId, taskId, modelId) then Retitle(t, title, now) else t
  }

  /** The table after the UPDATE statement: title and `updated_at` of the
      matching rows change, and every other row and field stays. */
  function Retitled(rows: seq<Task>, userId: nat, taskId: nat, modelId: nat, title: string, now: int): (r: seq<Task>)
    ensures |r| == |rows|
    ensures forall i :: 0 <= i < |rows| ==>
      r[i] == if IsUpdateTarget(rows[i], userId, taskId, modelId) then rows[i].(title := title, updatedAt := now) else rows[i]
  {
    Map(rows, RetitleTargets(userId, taskId, modelId, title, now))
  }

  /** `NOT (id = taskId AND user_id = userId)`: the rows a DELETE keeps. */
  function Survives(userId: nat, taskId: nat): Task -> bool
  {
    (t: Task) => !(t.id == taskId && t.userId == userId)
  }

  /** The table after the DELETE statement: the rows other than the match, in table order. */
  function Deleted(rows: seq<Task>, userId: nat, taskId: nat): (r: seq<Task>)
    ensures |r| <= |rows|
    ensures forall i :: 0 <= i < |r| ==> r[i] in rows && !(r[i].id == taskId && r[i].userId == userId)
    ensures forall i :: 0 <= i < |rows| && !(rows[i].id == taskId && rows[i].userId == userId) ==> rows[i] in r
  {
    Filter(rows, Survives(userId, taskId))
  }

  // ----- facts about the statements -----

  /** The rows after the first still have a unique primary key. */
  lemma UniqueIdsTail(rows: seq<Task>)
    requires UniqueIds(rows) && rows != []
    ensures UniqueIds(rows[1..])
  {
    var tail := rows[1..];
    forall i, j | 0 <= i < |tail| && 0 <= j < |tail| && tail[i].id == tail[j].id ensures i == j {
      assert rows[i + 1].id == rows[j + 1].id;
    }
  }

  /** A row whose id no other row has can go in front. */
  lemma UniqueIdsCons(h: Task, t: seq<Task>)
    requires UniqueIds(t)
    requires forall k :: 0 <= k < |t| ==> t[k].id != h.id
    ensures UniqueIds([h] + t)
  {
    var r := [h] + t;
    forall i, j | 0 <= i < |r| && 0 <= j < |r| && r[i].id == r[j].id ensures i == j {
      if i > 0 && j > 0 {
        assert t[i - 1].id == t[j - 1].id;
      }
    }
  }

  /** Selecting rows keeps the primary key unique. */
  lemma {:induction false} FilterKeepsUniqueIds(rows: seq<Task>, p: Task -> bool)
    requires UniqueIds(rows)
    ensures UniqueIds(Filter(rows, p))
  {
    if rows != [] {
      var tail := rows[1..];
      assert rows == [rows[0]] + tail;
      UniqueIdsTail(rows);
      FilterKeepsUniqueIds(tail, p);
      FilterCons(rows[0], tail, p);
      var ft := Filter(tail, p);
      if p(rows[0]) {
        forall k | 0 <= k < |ft| ensures ft[k].id != rows[0].id {
          assert ft[k] in tail;
          var j :| 0 <= j < |tail| && tail[j] == ft[k];
          assert rows[j + 1] == ft[k];
        }
        UniqueIdsCons(rows[0], ft);
      }
    }
  }

  /** With a unique primary key, at most one row is the UPDATE's target: the looked-up one. */
  lemma UpdateTargetIsLookup(rows: seq<Task>, userId: nat, taskId: nat, modelId: nat, i: nat)
    requires UniqueIds(rows) && i < |rows| && IsUpdateTarget(rows[i], userId, taskId, modelId)
    ensures Lookup(rows, userId, taskId) == Some(rows[i])
  {
    assert rows[i] in rows;
    var r := Lookup(rows, userId, taskId);
    var j :| 0 <= j < |rows| && rows[j] == r.value;
  }

  /** The DELETE keeps every row but the matching one; with a unique primary
      key and a match it removes exactly one row. */
  lemma DeletedRemovesTarget(rows: seq<Task>, userId: nat, taskId: nat)
    ensures forall t :: t in Deleted(rows, userId, taskId) <==> t in rows && !(t.id == taskId && t.userId == userId)
    ensures UniqueIds(rows) && Lookup(rows, userId, taskId).Some? ==>
      |Deleted(rows, userId, taskId)| == |rows| - 1
  {
    var d := Deleted(rows, userId, taskId);
    forall t | t in rows && !(t.id == taskId && t.userId == userId) ensures t in d {
      var j :| 0 <= j < |rows| && rows[j] == t;
    }
    if UniqueIds(rows) && Lookup(rows, userId, taskId).Some? {
      var target := Lookup(rows, userId, taskId).value;
      var i :| 0 <= i < |rows| && rows[i] == target;
      FilterDropsOne(rows, Survives(userId, taskId), i);
    }
  }

  /** `taskRepository`: the tasks table and the id sequence behind it. */
  class Repository {
    var rows: seq<Task>
    /** The next value of the table's auto-increment id sequence. */
    var nextId: nat

    ghost predicate Valid()
      reads this
    {
      && nextId > 0
      && UniqueIds(rows)
      && (forall i :: 0 <= i < |rows| ==> 0 < rows[i].id < nextId)
    }

    /** Wraps a table that may already hold rows; `nextId` is above every id in it. */
    constructor (rows: seq<Task>, nextId: nat)
      requires nextId > 0 && UniqueIds(rows)
      requires forall i :: 0 <= i < |rows| ==> 0 < rows[i].id < nextId
      ensures Valid() && this.rows == rows && this.nextId == nextId
    {
      this.rows := rows;
      this.nextId := nextId;
    }

    /** `Where("user_id=?").Order("created_at").Find(tasks)` */
    method GetAllTasks(userId: nat, fault: Option<string>) returns (tasks: seq<Task>, err: Option<string>)
      ensures err == fault
      ensures fault.Some? ==> tasks == []
      ensures fault.None? ==> tasks == OwnedSorted(rows, userId)
      ensures fault.None? ==> SortedByCreated(tasks) && multiset(tasks) == multiset(Owned(rows, userId))
      ensures fault.None? ==> forall t :: t in tasks <==> t in rows && t.userId == userId
    {
      if fault.Some? {
        return [], fault;
      }
      OwnedSortedMembers(rows, userId);
      tasks := OwnedSorted(rows, userId);
      err := None;
    }

    /** `Where("user_id=?").First(task, taskId)` */
    method GetTaskById(userId: nat, taskId: nat, fault: Option<string>) returns (task: Task, err: Option<string>)
      ensures fault.Some? ==> err == fault && task == ZeroTask
      ensures fault.None? ==> (err.None? <==> exists t :: t in rows && t.id == taskId && t.userId == userId)
      ensures fault.None? && err.Some? ==> err == Some(RecordNotFound) && task == ZeroTask
      ensures err.None? ==> task in rows && task.id == taskId && task.userId == userId
    {
      if fault.Some? {
        return ZeroTask, fault;
      }
      match Lookup(rows, userId, taskId)
      case None =>
        task, err := ZeroTask, Some(RecordNotFound);
      case Some(t) =>
        task, err := t, None;
    }

    /** `db.Create(task)`: inserts one row and writes the assigned id and timestamps back. */
    method CreateTask(task: Task, now: int, fault: Option<string>) returns (written: Task, err: Option<string>)
      requires Valid()
      modifies this
      ensures Valid()
      ensures err == fault
      ensures fault.Some? ==> rows == old(rows) && nextId == old(nextId) && written == task
      ensures fault.None? ==> written == Task(old(nextId), task.title, now, now, task.userId)
      ensures fault.None? ==> rows == old(rows) + [written] && nextId == old(nextId) + 1
      ensures fault.None? ==> forall t :: t in old(rows) ==> t.id != written.id
    {
      if fault.Some? {
        return task, fault;
      }
      written := Task(nextId, task.title, now, now, task.userId);
      rows := rows + [written];
      nextId := nextId + 1;
      err := None;
    }

    /**
     * `db.Model(task).Clauses(clause.Returning{}).Where("id=? AND user_id=?").Update("title", ...)`:
     * sets the title of the matching row, writes the updated row back into
     * `task`, and reports "object does not exist" when no row was affected.
     */
    method UpdateTask(task: Task, userId: nat, taskId: nat, now: int, fault: Option<string>)
      returns (written: Task, err: Option<string>)
      requires Valid()
      modifies this
      ensures Valid() && nextId == old(nextId)
      ensures fault.Some? ==> err == fault && rows == old(rows) && written == task
      ensures fault.None? && !Matches(old(rows), userId, taskId, task.id) ==>
        err == Some(ObjectDoesNotExist) && rows == old(rows) && written == task
      ensures fault.None? && Matches(old(rows), userId, taskId, task.id) ==>
        && err.None?
        && rows == Retitled(old(rows), userId, taskId, task.id, task.title, now)
        && written == Retitle(Lookup(old(rows), userId, taskId).value, task.title, now)
    {
      if fault.Some? {
        return task, fault;
      }
      if !Matches(rows, userId, taskId, task.id) {
        return task, Some(ObjectDoesNotExist);
      }
      written := Retitle(Lookup(rows, userId, taskId).value, task.title, now);
      rows := Retitled(rows, userId, taskId, task.id, task.title, now);
      err := None;
    }

    /** `Where("id=? AND user_id=?").Delete(...)` */
    method DeleteTask(userId: nat, taskId: nat, fault: Option<string>) returns (err: Option<string>)
      requires Valid()
      modifies this
      ensures Valid() && nextId == old(nextId)
      ensures fault.Some? ==> err == fault && rows == old(rows)
      ensures fault.None? && Lookup(old(rows), userId, taskId).None? ==>
        err == Some(ObjectDoesNotExist) && rows == old(rows)
      ensures fault.None? && Lookup(old(rows), userId, taskId).Some? ==>
        err.None? && rows == Deleted(old(rows), userId, taskId) && |rows| == |old(rows)| - 1
    {
      if fault.Some? {
        return fault;
      }
      if Lookup(rows, userId, taskId).None? {
        return Some(ObjectDoesNotExist);
      }
      DeletedRemovesTarget(rows, userId, taskId);
      FilterKeepsUniqueIds(rows, Survives(userId, taskId));
      var kept := Deleted(rows, userId, taskId);
      forall i | 0 <= i < |kept| ensures 0 < kept[i].id < nextId {
        var j :| 0 <= j < |rows| && rows[j] == kept[i];
      }
      rows := kept;
      err := None;
    }
  }

  /** Whether the UPDATE affects a row (`RowsAffected >= 1`). */
  predicate Matches(rows: seq<Task>, userId: nat, taskId: nat, modelId: nat): (b: bool)
    ensures b <==> exists t :: t in rows && IsUpdateTarget(t, userId, taskId, modelId)
  {
    Lookup(rows, userId, taskId).Some? && (modelId == 0 || modelId == taskId)
  }
}
