/**
 * The task operations: add, update, delete, mark and list. Each one loads the
 * whole list from the store and works on that copy. A successful add, update
 * or mark saves the changed list, a successful delete saves a filtered copy,
 * and list never saves; loading itself creates an absent file holding "[]".
 * The clock is a parameter: `now` is the timestamp text the operation
 * stamps records with.
 */
module TaskService {
  import opened Wrappers
  import opened Json
  import opened Text
  import opened TaskStore

  /**
   * The errors the operations raise, told apart here. The first four are
   * `ValueError` in the source; `UnorderableIds` is the `TypeError` of `sorted`.
   */
  datatype Error =
    | EmptyDescription               // the description is blank
    | NotFound(id: int)              // no record carries that id
    | InvalidStatus(status: string)  // a status or filter outside the accepted values
    | CorruptStore(reason: Corruption)
    | UnorderableIds                 // the listing would meet a key it cannot be ordered against

  /** `VALID_STATUSES`. */
  const ValidStatuses: seq<string> := ["todo", "in-progress", "done"]

  /** The filter value `list_tasks` reads as "todo or in-progress". */
  const NotDone: string := "not-done"

  predicate IsValidStatus(status: string) {
    status in ValidStatuses
  }

  /** `task.get("status")`. */
  function StatusOf(t: Task): Option<Value> {
    if "status" in t then Some(t["status"]) else None
  }

  /** `task.get("status") in statuses`: only a string equal to one of them matches. */
  predicate HasStatusIn(t: Task, statuses: seq<string>) {
    StatusOf(t).Some? && StatusOf(t).value.JString? && StatusOf(t).value.s in statuses
  }

  // ---------------------------------------------------------------------------
  // Descriptions

  /**
   * `_clean_description`: the description without its surrounding whitespace;
   * blank input is an error and the cleaned text is never empty.
   */
  function CleanDescription(description: string): (r: Result<string, Error>)
    ensures r.Failure? <==> IsBlank(description)
    ensures r.Failure? ==> r.error == EmptyDescription
    ensures r.Success? ==> r.value != [] && !IsSpace(r.value[0]) && !IsSpace(r.value[|r.value| - 1])
    ensures r.Success? ==> r.value == Strip(description)
  {
    var cleaned := Strip(description);
    if cleaned == [] then Failure(EmptyDescription) else Success(cleaned)
  }

  // ---------------------------------------------------------------------------
  // Finding a record

  /** `task.get("id") == task_id`. */
  predicate HasId(t: Task, taskId: int) {
    IdOf(t) == Some(JInt(taskId))
  }

  /** The position of the first record carrying `taskId`, if any. */
  function IndexOfId(tasks: seq<Task>, taskId: int): (r: Option<nat>)
    ensures r.None? <==> forall k :: 0 <= k < |tasks| ==> !HasId(tasks[k], taskId)
    ensures r.Some? ==> r.value < |tasks| && HasId(tasks[r.value], taskId)
    ensures r.Some? ==> forall k :: 0 <= k < r.value ==> !HasId(tasks[k], taskId)
  {
    if tasks == [] then None
    else if HasId(tasks[0], taskId) then Some(0)
    else
      match IndexOfId(tasks[1..], taskId)
      case Some(k) => Some(k + 1)
      case None => None
  }

  /**
   * `_find_task`: a linear scan that stops at the first record with the id.
   * It answers with that record's position, so callers can change the record in place.
   */
  method FindTask(tasks: seq<Task>, taskId: int) returns (r: Option<nat>)
    ensures r == IndexOfId(tasks, taskId)
  {
    for k := 0 to |tasks|
      invariant forall j :: 0 <= j < k ==> !HasId(tasks[j], taskId)
    {
      if HasId(tasks[k], taskId) {
        return Some(k);
      }
    }
    return None;
  }

  // ---------------------------------------------------------------------------
  // Records built and changed by the operations

  /** The record `add_task` builds: a fresh "todo" task whose two timestamps agree. */
  function NewTask(id: int, description: string, now: string): (t: Task)
    ensures IdOf(t) == Some(JInt(id)) && IntId(t) == Some(id)
    ensures StatusOf(t) == Some(JString("todo"))
    ensures "description" in t && t["description"] == JString(description)
    ensures "createdAt" in t && "updatedAt" in t && t["createdAt"] == t["updatedAt"] == JString(now)
    ensures t.Keys == {"id", "description", "status", "createdAt", "updatedAt"}
  {
    map[
      "id" := JInt(id),
      "description" := JString(description),
      "status" := JString("todo"),
      "createdAt" := JString(now),
      "updatedAt" := JString(now)
    ]
  }

  /**
   * Two records agree on every field except `field` and "updatedAt", which
   * `t'` carries; this is what an in-place edit by `update_task` or
   * `mark_task` does to a record.
   */
  predicate OnlyChanged(t: Task, t': Task, field: string) {
    && t'.Keys == t.Keys + {field, "updatedAt"}
    && forall key | key in t && key != field && key != "updatedAt" :: t'[key] == t[key]
  }

  /** The record after `update_task`: new description, new "updatedAt", nothing else changed. */
  function Describe(t: Task, description: string, now: string): (t': Task)
    ensures OnlyChanged(t, t', "description")
    ensures t'["description"] == JString(description) && t'["updatedAt"] == JString(now)
    ensures IdOf(t') == IdOf(t) && StatusOf(t') == StatusOf(t)
  {
    t["description" := JString(description)]["updatedAt" := JString(now)]
  }

  /** The record after `mark_task`: new status, new "updatedAt", nothing else changed. */
  function Restatus(t: Task, status: string, now: string): (t': Task)
    ensures OnlyChanged(t, t', "status")
    ensures StatusOf(t') == Some(JString(status)) && t'["updatedAt"] == JString(now)
    ensures IdOf(t') == IdOf(t)
  {
    t["status" := JString(status)]["updatedAt" := JString(now)]
  }

  /**
   * The list `delete_task` saves: every record whose id is not `taskId`, in
   * the original order.
   */
  function RemoveId(tasks: seq<Task>, taskId: int): (r: seq<Task>)
    ensures |r| <= |tasks|
    ensures forall t :: t in r <==> t in tasks && !HasId(t, taskId)
    ensures forall t :: multiset(r)[t] == if HasId(t, taskId) then 0 else multiset(tasks)[t]
  {
    if tasks == [] then []
    else
      assert tasks == [tasks[0]] + tasks[1..];
      var rest := RemoveId(tasks[1..], taskId);
      if HasId(tasks[0], taskId) then rest else [tasks[0]] + rest
  }

  // ---------------------------------------------------------------------------
  // Listing

  /** The sort key `task.get("id", 0)`: a missing id counts as 0. */
  function SortKey(t: Task): int {
    match IdOf(t)
    case Some(JInt(i)) => i
    case _ => 0
  }

  /** The key of `t` can be compared with integer keys: its id is absent or an integer. */
  predicate HasOrderableId(t: Task) {
    IdOf(t).None? || IdOf(t).value.JInt?
  }

  predicate SortedById(s: seq<Task>) {
    forall i, j :: 0 <= i < j < |s| ==> SortKey(s[i]) <= SortKey(s[j])
  }

  /** `t` placed in the list `s` before the first record with a key not below its own. */
  function Insert(t: Task, s: seq<Task>): (r: seq<Task>)
    ensures multiset(r) == multiset(s) + multiset{t}
    ensures |r| == |s| + 1
    ensures r[0] == t || (s != [] && r[0] == s[0])
  {
    if s == [] || SortKey(t) <= SortKey(s[0]) then [t] + s
    else
      assert s == [s[0]] + s[1..];
      [s[0]] + Insert(t, s[1..])
  }

  /** Inserting into a sorted list keeps it sorted. */
  lemma {:induction false} InsertKeepsSorted(t: Task, s: seq<Task>)
    requires SortedById(s)
    ensures SortedById(Insert(t, s))
  {
    if s != [] && SortKey(t) > SortKey(s[0]) {
      var rest := Insert(t, s[1..]);
      InsertKeepsSorted(t, s[1..]);
      assert SortKey(s[0]) <= SortKey(rest[0]);
      forall i, j | 0 <= i < j < |rest| + 1
        ensures SortKey(([s[0]] + rest)[i]) <= SortKey(([s[0]] + rest)[j])
      {
        if i > 0 { assert SortKey(rest[i - 1]) <= SortKey(rest[j - 1]); }
        else if j > 1 { assert SortKey(rest[0]) <= SortKey(rest[j - 1]); }
      }
    }
  }

  /**
   * `sorted(..., key=lambda task: task.get("id", 0))`: a stable sort by id;
   * the result is ordered and holds exactly the records of the input.
   */
  function SortById(s: seq<Task>): (r: seq<Task>)
    ensures SortedById(r)
    ensures multiset(r) == multiset(s)
    ensures |r| == |s|
  {
    if s == [] then []
    else
      assert s == [s[0]] + s[1..];
      InsertKeepsSorted(s[0], SortById(s[1..]));
      Insert(s[0], SortById(s[1..]))
  }

  /** Whether the record passes the filter of `list_tasks`. */
  predicate Matches(t: Task, filter: Option<string>) {
    match filter
    case None => true
    case Some(status) =>
      if status == NotDone then HasStatusIn(t, ["todo", "in-progress"])
      else StatusOf(t) == Some(JString(status))
  }

  /** The filter values `list_tasks` accepts. */
  predicate IsValidFilter(filter: Option<string>) {
    filter.None? || filter.value == NotDone || IsValidStatus(filter.value)
  }

  /** The list comprehension of `list_tasks`: the records that pass the filter, in file order. */
  function Select(tasks: seq<Task>, filter: Option<string>): (r: seq<Task>)
    ensures |r| <= |tasks|
    ensures forall t {:trigger t in r} :: t in r <==> t in tasks && Matches(t, filter)
    ensures forall t {:trigger multiset(r)[t]} :: multiset(r)[t] == if Matches(t, filter) then multiset(tasks)[t] else 0
  {
    if tasks == [] then []
    else
      assert tasks == [tasks[0]] + tasks[1..];
      var rest := Select(tasks[1..], filter);
      if Matches(tasks[0], filter) then [tasks[0]] + rest else rest
  }

  /**
   * `sorted` applied to the selected records. Two or more records are compared,
   * and a present non-integer id among them is taken as a key it cannot be
   * ordered against.
   */
  function Ordered(s: seq<Task>): (r: Result<seq<Task>, Error>)
    ensures r.Failure? <==> |s| >= 2 && exists t :: t in s && !HasOrderableId(t)
    ensures r.Failure? ==> r.error == UnorderableIds
    ensures r.Success? ==> SortedById(r.value) && multiset(r.value) == multiset(s)
  {
    if |s| >= 2 && exists t :: t in s && !HasOrderableId(t) then Failure(UnorderableIds)
    else Success(SortById(s))
  }

  /**
   * `list_tasks` on the loaded records: no filter keeps every record,
   * "not-done" keeps "todo" and "in-progress", a valid status keeps exact
   * matches, and any other filter is an error. The result is sorted by id and
   * holds each passing record exactly as often as the list does.
   */
  function Listing(tasks: seq<Task>, filter: Option<string>): (r: Result<seq<Task>, Error>)
    ensures !IsValidFilter(filter) ==> r == Failure(InvalidStatus(filter.value))
    ensures IsValidFilter(filter) && r.Failure? ==> r.error == UnorderableIds
    ensures IsValidFilter(filter) && (forall t | t in tasks && Matches(t, filter) :: HasOrderableId(t)) ==> r.Success?
    ensures r.Success? ==> SortedById(r.value)
    ensures r.Success? ==> forall t :: multiset(r.value)[t] == if Matches(t, filter) then multiset(tasks)[t] else 0
    ensures r.Success? ==> forall t :: t in r.value <==> t in tasks && Matches(t, filter)
  {
    if filter.None? then Ordered(tasks)
    else if filter.value == NotDone then Ordered(Select(tasks, filter))
    else if !IsValidStatus(filter.value) then Failure(InvalidStatus(filter.value))
    else Ordered(Select(tasks, filter))
  }

  // ---------------------------------------------------------------------------
  // The operations on the store

  /**
   * `add_task`: load, give the new record the next id, clean the description
   * (a blank one fails after the load and before anything is written),
   * append the record, save, and return it.
   */
  method AddTask(store: Store, description: string, now: string) returns (r: Result<Task, Error>)
    modifies store
    ensures var loaded := Loaded(old(store.file));
      && (loaded.Failure? ==> r == Failure(CorruptStore(loaded.error)))
      && (loaded.Success? && IsBlank(description) ==> r == Failure(EmptyDescription))
      && (r.Failure? ==> store.file == Some(Materialised(old(store.file))))
      && (loaded.Success? && !IsBlank(description) ==>
            var t := NewTask(NextTaskId(loaded.value), Strip(description), now);
            r == Success(t) && store.file == Some(Encode(loaded.value + [t])))
  {
    var loaded := store.LoadTasks();
    if loaded.Failure? {
      return Failure(CorruptStore(loaded.error));
    }
    var tasks := loaded.value;
    var id := GetNextTaskId(tasks);
    var cleaned := CleanDescription(description);
    if cleaned.Failure? {
      return Failure(cleaned.error);
    }
    var task := NewTask(id, cleaned.value, now);
    tasks := tasks + [task];
    store.SaveTasks(tasks);
    r := Success(task);
  }

  /**
   * `update_task`: load, find the first record with the id (an unknown id
   * fails before the description is looked at), clean the description, set
   * it and "updatedAt" on that record in place, save, and return the record.
   */
  method UpdateTask(store: Store, taskId: int, description: string, now: string) returns (r: Result<Task, Error>)
    modifies store
    ensures var loaded := Loaded(old(store.file));
      && (loaded.Failure? ==> r == Failure(CorruptStore(loaded.error)))
      && (loaded.Success? && IndexOfId(loaded.value, taskId).None? ==> r == Failure(NotFound(taskId)))
      && (loaded.Success? && IndexOfId(loaded.value, taskId).Some? && IsBlank(description) ==>
            r == Failure(EmptyDescription))
      && (r.Failure? ==> store.file == Some(Materialised(old(store.file))))
      && (loaded.Success? && IndexOfId(loaded.value, taskId).Some? && !IsBlank(description) ==>
            var i := IndexOfId(loaded.value, taskId).value;
            var t := Describe(loaded.value[i], Strip(description), now);
            r == Success(t) && store.file == Some(Encode(loaded.value[i := t])))
  {
    var loaded := store.LoadTasks();
    if loaded.Failure? {
      return Failure(CorruptStore(loaded.error));
    }
    var tasks := loaded.value;
    var found := FindTask(tasks, taskId);
    if found.None? {
      return Failure(NotFound(taskId));
    }
    var i := found.value;
    var cleaned := CleanDescription(description);
    if cleaned.Failure? {
      return Failure(cleaned.error);
    }
    tasks := tasks[i := Describe(tasks[i], cleaned.value, now)];
    store.SaveTasks(tasks);
    r := Success(tasks[i]);
  }

  /**
   * `delete_task`: load, find the first record with the id, save the list
   * without any record carrying that id, and return the record found.
   */
  method DeleteTask(store: Store, taskId: int) returns (r: Result<Task, Error>)
    modifies store
    ensures var loaded := Loaded(old(store.file));
      && (loaded.Failure? ==> r == Failure(CorruptStore(loaded.error)))
      && (loaded.Success? && IndexOfId(loaded.value, taskId).None? ==> r == Failure(NotFound(taskId)))
      && (r.Failure? ==> store.file == Some(Materialised(old(store.file))))
      && (loaded.Success? && IndexOfId(loaded.value, taskId).Some? ==>
            r == Success(loaded.value[IndexOfId(loaded.value, taskId).value])
            && store.file == Some(Encode(RemoveId(loaded.value, taskId))))
  {
    var loaded := store.LoadTasks();
    if loaded.Failure? {
      return Failure(CorruptStore(loaded.error));
    }
    var tasks := loaded.value;
    var found := FindTask(tasks, taskId);
    if found.None? {
      return Failure(NotFound(taskId));
    }
    var remaining := RemoveId(tasks, taskId);
    store.SaveTasks(remaining);
    r := Success(tasks[found.value]);
  }

  /**
   * `mark_task`: reject a status outside `VALID_STATUSES` before the file is
   * touched, then load, find the first record with the id, set its status and
   * "updatedAt" in place, save, and return the record.
   */
  method MarkTask(store: Store, taskId: int, status: string, now: string) returns (r: Result<Task, Error>)
    modifies store
    ensures !IsValidStatus(status) ==> r == Failure(InvalidStatus(status)) && store.file == old(store.file)
    ensures IsValidStatus(status) ==>
      var loaded := Loaded(old(store.file));
      && (loaded.Failure? ==> r == Failure(CorruptStore(loaded.error)))
      && (loaded.Success? && IndexOfId(loaded.value, taskId).None? ==> r == Failure(NotFound(taskId)))
      && (r.Failure? ==> store.file == Some(Materialised(old(store.file))))
      && (loaded.Success? && IndexOfId(loaded.value, taskId).Some? ==>
            var i := IndexOfId(loaded.value, taskId).value;
            var t := Restatus(loaded.value[i], status, now);
            r == Success(t) && store.file == Some(Encode(loaded.value[i := t])))
  {
    if !IsValidStatus(status) {
      return Failure(InvalidStatus(status));
    }
    var loaded := store.LoadTasks();
    if loaded.Failure? {
      return Failure(CorruptStore(loaded.error));
    }
    var tasks := loaded.value;
    var found := FindTask(tasks, taskId);
    if found.None? {
      return Failure(NotFound(taskId));
    }
    var i := found.value;
    tasks := tasks[i := Restatus(tasks[i], status, now)];
    store.SaveTasks(tasks);
    r := Success(tasks[i]);
  }

  /**
   * `list_tasks`: load (the file is materialised but its content never
   * rewritten), then filter and sort; an invalid filter is reported only
   * once the load has succeeded.
   */
  method ListTasks(store: Store, filter: Option<string>) returns (r: Result<seq<Task>, Error>)
    modifies store
    ensures store.file == Some(Materialised(old(store.file)))
    ensures var loaded := Loaded(old(store.file));
      && (loaded.Failure? ==> r == Failure(CorruptStore(loaded.error)))
      && (loaded.Success? ==> r == Listing(loaded.value, filter))
  {
    var loaded := store.LoadTasks();
    if loaded.Failure? {
      return Failure(CorruptStore(loaded.error));
    }
    r := Listing(loaded.value, filter);
  }
}
