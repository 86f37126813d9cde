/**
 * Properties of the task operations that relate several of them: how ids are
 * handed out and kept unique, what deletion removes, how the listings split
 * the records, and that the listing is a stable sort.
 */
module ServiceProperties {
  import opened Wrappers
  import opened Json
  import opened TaskStore
  import opened TaskService

  /** No two records share an integer id. */
  predicate UniqueIds(tasks: seq<Task>) {
    forall i, j :: 0 <= i < j < |tasks| && IntId(tasks[i]).Some? ==> IntId(tasks[i]) != IntId(tasks[j])
  }

  // ---------------------------------------------------------------------------
  // Ids

  /**
   * The record `add_task` appends carries an id no earlier record has, so a
   * list with unique ids keeps them unique.
   */
  lemma AddKeepsIdsUnique(tasks: seq<Task>, description: string, now: string)
    requires UniqueIds(tasks)
    ensures UniqueIds(tasks + [NewTask(NextTaskId(tasks), description, now)])
  {
    var t := NewTask(NextTaskId(tasks), description, now);
    var s := tasks + [t];
    forall i, j | 0 <= i < j < |s| && IntId(s[i]).Some?
      ensures IntId(s[i]) != IntId(s[j])
    {
      if j == |tasks| {
        assert s[i] in tasks;
      }
    }
  }

  /** Consecutive adds hand out consecutive ids: after an add the next id is one more. */
  lemma NextIdAfterAdd(tasks: seq<Task>, description: string, now: string)
    ensures NextTaskId(tasks + [NewTask(NextTaskId(tasks), description, now)]) == NextTaskId(tasks) + 1
  {
    var t := NewTask(NextTaskId(tasks), description, now);
    assert t in tasks + [t];
  }

  /** The next id depends only on the integer ids, position by position. */
  lemma NextTaskIdFromIds(a: seq<Task>, b: seq<Task>)
    requires |a| == |b|
    requires forall k :: 0 <= k < |a| ==> IntId(a[k]) == IntId(b[k])
    ensures NextTaskId(a) == NextTaskId(b)
  {
    var ra, rb := NextTaskId(a), NextTaskId(b);
    if ra != 1 {
      var u :| u in a && IntId(u) == Some(ra - 1);
      var k :| 0 <= k < |a| && a[k] == u;
      assert b[k] in b;
    }
    if rb != 1 {
      var u :| u in b && IntId(u) == Some(rb - 1);
      var k :| 0 <= k < |b| && b[k] == u;
      assert a[k] in a;
    }
  }

  /**
   * An in-place edit that keeps the record's id (what `update_task` and
   * `mark_task` do) keeps the ids unique and does not move the next id.
   */
  lemma EditKeepsIds(tasks: seq<Task>, i: nat, t': Task)
    requires i < |tasks| && IdOf(t') == IdOf(tasks[i])
    ensures UniqueIds(tasks) ==> UniqueIds(tasks[i := t'])
    ensures NextTaskId(tasks[i := t']) == NextTaskId(tasks)
  {
    var s := tasks[i := t'];
    assert forall k :: 0 <= k < |s| ==> IntId(s[k]) == IntId(tasks[k]);
    NextTaskIdFromIds(s, tasks);
  }

  /** Deleting never raises the next id: it exceeds every id that remains. */
  lemma DeleteDoesNotRaiseNextId(tasks: seq<Task>, taskId: int)
    ensures NextTaskId(RemoveId(tasks, taskId)) <= NextTaskId(tasks)
  {
    var r := RemoveId(tasks, taskId);
    var m := NextTaskId(r);
    if m != 1 {
      var u :| u in r && IntId(u) == Some(m - 1);
      assert u in tasks;
    }
  }

  /**
   * Ids are chosen from the records that are present, so deleting the record
   * with the largest id frees that id for the next add: with records 1 and 2,
   * deleting 2 makes 2 the next id again.
   */
  lemma DeletedLargestIdIsReused(now: string)
    ensures var tasks := [NewTask(1, "a", now), NewTask(2, "b", now)];
      && NextTaskId(tasks) == 3
      && NextTaskId(RemoveId(tasks, 2)) == 2
  {
    var a, b := NewTask(1, "a", now), NewTask(2, "b", now);
    var tasks := [a, b];
    assert tasks[1..] == [b];
    assert [a, b][..1] == [a];
    assert RemoveId([b], 2) == [];
    assert RemoveId(tasks, 2) == [a];
    assert [a][..0] == [];
  }

  // ---------------------------------------------------------------------------
  // Deletion

  /** Filtering distributes over concatenation: deletion keeps the relative order of what remains. */
  lemma {:induction false} RemoveIdAppend(a: seq<Task>, b: seq<Task>, taskId: int)
    ensures RemoveId(a + b, taskId) == RemoveId(a, taskId) + RemoveId(b, taskId)
  {
    if a == [] {
      assert a + b == b;
    } else {
      assert (a + b)[1..] == a[1..] + b;
      RemoveIdAppend(a[1..], b, taskId);
    }
  }

  /** Filtering out an id that no record carries keeps the list as it is. */
  lemma {:induction false} RemoveAbsentId(tasks: seq<Task>, taskId: int)
    requires forall k :: 0 <= k < |tasks| ==> !HasId(tasks[k], taskId)
    ensures RemoveId(tasks, taskId) == tasks
  {
    if tasks != [] {
      RemoveAbsentId(tasks[1..], taskId);
    }
  }

  /** Removing an id that exactly one record carries cuts that record out and keeps the rest in order. */
  lemma RemoveSingleOccurrence(tasks: seq<Task>, taskId: int, i: nat)
    requires i < |tasks| && HasId(tasks[i], taskId)
    requires forall k :: 0 <= k < |tasks| && k != i ==> !HasId(tasks[k], taskId)
    ensures RemoveId(tasks, taskId) == tasks[..i] + tasks[i + 1..]
  {
    var pre, x, post := tasks[..i], tasks[i], tasks[i + 1..];
    assert tasks == pre + ([x] + post);
    RemoveAbsentId(pre, taskId);
    RemoveAbsentId(post, taskId);
    assert RemoveId([x], taskId) == [] by {
      assert [x][1..] == [];
    }
    RemoveIdAppend(pre, [x] + post, taskId);
    RemoveIdAppend([x], post, taskId);
  }

  /**
   * With unique ids, `delete_task` removes exactly the record it found and
   * keeps every other record, in order.
   */
  lemma DeleteRemovesExactlyOne(tasks: seq<Task>, taskId: int)
    requires UniqueIds(tasks)
    requires IndexOfId(tasks, taskId).Some?
    ensures var i := IndexOfId(tasks, taskId).value;
      RemoveId(tasks, taskId) == tasks[..i] + tasks[i + 1..]
  {
    var i := IndexOfId(tasks, taskId).value;
    NoLaterRecordHasId(tasks, i, taskId);
    RemoveSingleOccurrence(tasks, taskId, i);
  }

  /** With unique ids, no record after one carrying `taskId` carries it too. */
  lemma NoLaterRecordHasId(tasks: seq<Task>, i: nat, taskId: int)
    requires UniqueIds(tasks)
    requires i < |tasks| && HasId(tasks[i], taskId)
    ensures forall k :: i < k < |tasks| ==> !HasId(tasks[k], taskId)
  {
    forall k | i < k < |tasks| ensures !HasId(tasks[k], taskId) {
      assert IntId(tasks[i]) != IntId(tasks[k]);
    }
  }

  /** A list headed by `t` has unique ids exactly when its tail does and no tail record shares `t`'s integer id. */
  lemma UniqueIdsCons(t: Task, s: seq<Task>)
    ensures UniqueIds([t] + s) <==> UniqueIds(s) && (IntId(t).Some? ==> forall u | u in s :: IntId(u) != IntId(t))
  {
    var l := [t] + s;
    if UniqueIds(l) {
      forall i, j | 0 <= i < j < |s| && IntId(s[i]).Some? ensures IntId(s[i]) != IntId(s[j]) {
        assert s[i] == l[i + 1] && s[j] == l[j + 1];
      }
      forall u | u in s && IntId(t).Some? ensures IntId(u) != IntId(t) {
        var j :| 0 <= j < |s| && s[j] == u;
        assert l[0] == t && l[j + 1] == u;
        assert IntId(l[0]) != IntId(l[j + 1]);
      }
    }
    if UniqueIds(s) && (IntId(t).Some? ==> forall u | u in s :: IntId(u) != IntId(t)) {
      forall i, j | 0 <= i < j < |l| && IntId(l[i]).Some? ensures IntId(l[i]) != IntId(l[j]) {
        assert l[j] == s[j - 1];
        if i > 0 { assert l[i] == s[i - 1]; }
      }
    }
  }

  /** Deletion keeps the ids unique. */
  lemma {:induction false} DeleteKeepsIdsUnique(tasks: seq<Task>, taskId: int)
    requires UniqueIds(tasks)
    ensures UniqueIds(RemoveId(tasks, taskId))
  {
    if tasks != [] {
      var t, rest := tasks[0], tasks[1..];
      assert tasks == [t] + rest;
      UniqueIdsCons(t, rest);
      DeleteKeepsIdsUnique(rest, taskId);
      if !HasId(t, taskId) {
        UniqueIdsCons(t, RemoveId(rest, taskId));
      }
    }
  }

  // ---------------------------------------------------------------------------
  // Listing

  /** The statuses of `VALID_STATUSES` a record may carry. */
  predicate HasValidStatus(t: Task) {
    HasStatusIn(t, ValidStatuses)
  }

  /**
   * When the records with a valid status have ids that can be ordered (the
   * others are filtered out before sorting), `list_tasks("not-done")` and
   * `list_tasks("done")` both succeed, share no record, and together hold
   * exactly the records whose status is one of the three valid ones.
   */
  lemma NotDoneAndDoneSplitValid(tasks: seq<Task>)
    requires forall t | t in tasks && HasValidStatus(t) :: HasOrderableId(t)
    ensures Listing(tasks, Some(NotDone)).Success? && Listing(tasks, Some("done")).Success?
    ensures var open, done := Listing(tasks, Some(NotDone)).value, Listing(tasks, Some("done")).value;
      && (forall t :: !(t in open && t in done))
      && (forall t :: t in open || t in done <==> t in tasks && HasValidStatus(t))
  {
  }

  /**
   * The filter distributes over concatenation: the listing's comprehension
   * keeps the passing records in file order.
   */
  lemma {:induction false} SelectAppend(a: seq<Task>, b: seq<Task>, filter: Option<string>)
    ensures Select(a + b, filter) == Select(a, filter) + Select(b, filter)
  {
    if a == [] {
      assert a + b == b;
    } else {
      assert (a + b)[0] == a[0] && (a + b)[1..] == a[1..] + b;
      SelectAppend(a[1..], b, filter);
    }
  }

  /**
   * Whatever the ids, the records the "not-done" and "done" filters keep share
   * none, and together they are exactly the records with a valid status.
   */
  lemma NotDoneAndDoneSelectSplit(tasks: seq<Task>)
    ensures forall t :: !(t in Select(tasks, Some(NotDone)) && t in Select(tasks, Some("done")))
    ensures forall t :: t in Select(tasks, Some(NotDone)) || t in Select(tasks, Some("done")) <==> t in tasks && HasValidStatus(t)
  {
  }

  /**
   * With at most one record, or with every id absent or an integer,
   * `list_tasks()` holds every record exactly as often as the file does,
   * sorted by id.
   */
  lemma ListAllIsSortedPermutation(tasks: seq<Task>)
    requires |tasks| < 2 || forall t | t in tasks :: HasOrderableId(t)
    ensures Listing(tasks, None).Success?
    ensures multiset(Listing(tasks, None).value) == multiset(tasks)
    ensures |Listing(tasks, None).value| == |tasks|
    ensures SortedById(Listing(tasks, None).value)
  {
    var r := Listing(tasks, None).value;
    assert multiset(r) == multiset(tasks);
  }

  /** The records of `s` whose sort key is `key`, in the order of `s`: one key class of the listing. */
  function WithKey(s: seq<Task>, key: int): (r: seq<Task>)
    ensures forall t :: t in r <==> t in s && SortKey(t) == key
  {
    if s == [] then []
    else if SortKey(s[0]) == key then [s[0]] + WithKey(s[1..], key)
    else WithKey(s[1..], key)
  }

  /** Inserting `t` adds it to its own key class, at the front, and leaves every other key class as it was. */
  lemma {:induction false} InsertIsStable(t: Task, s: seq<Task>, key: int)
    ensures WithKey(Insert(t, s), key) == if SortKey(t) == key then [t] + WithKey(s, key) else WithKey(s, key)
  {
    if s == [] || SortKey(t) <= SortKey(s[0]) {
      assert Insert(t, s)[1..] == s;
    } else {
      var rest := Insert(t, s[1..]);
      assert Insert(t, s) == [s[0]] + rest;
      assert ([s[0]] + rest)[1..] == rest;
      InsertIsStable(t, s[1..], key);
    }
  }

  /**
   * `sorted` is stable: records with equal ids (or several without an id)
   * keep their file order in the listing.
   */
  lemma {:induction false} SortByIdIsStable(s: seq<Task>, key: int)
    ensures WithKey(SortById(s), key) == WithKey(s, key)
  {
    if s != [] {
      SortByIdIsStable(s[1..], key);
      InsertIsStable(s[0], SortById(s[1..]), key);
    }
  }

  // ---------------------------------------------------------------------------
  // Scenarios

  /**
   * Records 1 ("todo") and 2 ("done"); marking 1 "in-progress" changes only
   * record 1, and the "not-done" listing is then exactly the changed record 1.
   */
  lemma MarkThenListNotDone(a: Task, b: Task, now: string)
    requires IdOf(a) == Some(JInt(1)) && StatusOf(a) == Some(JString("todo"))
    requires IdOf(b) == Some(JInt(2)) && StatusOf(b) == Some(JString("done"))
    ensures IndexOfId([a, b], 1) == Some(0)
    ensures var a' := Restatus(a, "in-progress", now);
      Listing([a, b][0 := a'], Some(NotDone)) == Success([a'])
  {
    var a' := Restatus(a, "in-progress", now);
    var s := [a, b][0 := a'];
    assert s == [a', b];
    assert s[1..] == [b];
    assert Select([b], Some(NotDone)) == [];
    assert Select(s, Some(NotDone)) == [a'];
  }

  /** The first add on an absent file gives task 1, "todo", with equal timestamps. */
  lemma FirstAddOnAbsentFile(description: string, now: string)
    ensures Loaded(None) == Success([])
    ensures var t := NewTask(NextTaskId([]), description, now);
      IdOf(t) == Some(JInt(1)) && StatusOf(t) == Some(JString("todo")) && t["createdAt"] == t["updatedAt"]
  {
  }
}
