/**
 * The persistence layer of the task tracker: the task file, how its content
 * is validated into a list of task records, how the list is written back, and
 * how the next task id is chosen.
 *
 * The file is abstract: it is absent or holds some content. Content is seen
 * the way `json.loads` sees it, after `str.strip()`: either text that does not
 * decode (blank text among it), or text that decodes to a JSON value.
 */
module TaskStore {
  import opened Wrappers
  import opened Json
  import opened Text

  /** A task record: the members of one JSON object of the file (a Python dict). */
  type Task = map<string, Value>

  /** `task.get("id")`: the value stored under "id", if there is one. */
  function IdOf(t: Task): Option<Value> {
    if "id" in t then Some(t["id"]) else None
  }

  /** The id of `t` when it is an integer (the ids `isinstance(task_id, int)` accepts). */
  function IntId(t: Task): (r: Option<int>)
    ensures r.Some? <==> IdOf(t).Some? && IdOf(t).value.JInt?
    ensures r.Some? ==> IdOf(t) == Some(JInt(r.value))
  {
    match IdOf(t)
    case Some(JInt(i)) => Some(i)
    case _ => None
  }

  /**
   * The id `get_next_task_id` hands out: one more than the largest positive
   * integer id of the list, and 1 when there is none. It exceeds every integer
   * id of the list, and unless it is 1 its predecessor is one of them.
   */
  function NextTaskId(tasks: seq<Task>): (r: int)
    ensures r >= 1
    ensures forall t | t in tasks && IntId(t).Some? :: IntId(t).value < r
    ensures r == 1 || exists t :: t in tasks && IntId(t) == Some(r - 1)
  {
    if tasks == [] then 1
    else
      var init := tasks[..|tasks| - 1];
      var last := tasks[|tasks| - 1];
      assert tasks == init + [last];
      var before := NextTaskId(init);
      match IntId(last)
      case Some(i) => if i + 1 > before then i + 1 else before
      case None => before
  }

  /** `get_next_task_id`: a running maximum over the ids, starting at 0. */
  method GetNextTaskId(tasks: seq<Task>) returns (r: int)
    ensures r == NextTaskId(tasks)
  {
    var maxId := 0;
    for k := 0 to |tasks|
      invariant maxId + 1 == NextTaskId(tasks[..k])
    {
      assert tasks[..k + 1][..k] == tasks[..k];
      var taskId := IdOf(tasks[k]);
      if taskId.Some? && taskId.value.JInt? && taskId.value.i > maxId {
        maxId := taskId.value.i;
      }
    }
    assert tasks[..|tasks|] == tasks;
    r := maxId + 1;
  }

  /** Why the file content is not a task list (each raises `ValueError` in the source). */
  datatype Corruption =
    | InvalidJson              // the stripped content is not blank and does not decode
    | NotAnArray               // the decoded value is not a JSON array
    | NotAnObject(index: nat)  // the element at `index` is not a JSON object

  /** The content of the task file, as `json.loads` sees it once stripped. */
  datatype Contents =
    | Undecodable(raw: string)  // text that does not decode; blank text is among it
    | Decoded(value: Value)     // text that decodes to `value`

  /** What the text "[]", written by `ensure_tasks_file`, decodes to. */
  const EmptyArray: Contents := Decoded(JArray([]))

  /**
   * The elements of a decoded array, checked one by one: the records in order
   * when every element is an object, otherwise the index of the first element
   * that is not.
   */
  function Objects(items: seq<Value>): (r: Result<seq<Task>, Corruption>)
    ensures r.Success? <==> forall k :: 0 <= k < |items| ==> items[k].JObject?
    ensures r.Success? ==> |r.value| == |items| && forall k :: 0 <= k < |items| ==> items[k] == JObject(r.value[k])
    ensures r.Failure? ==> r.error.NotAnObject? && r.error.index < |items| && !items[r.error.index].JObject?
    ensures r.Failure? ==> forall k :: 0 <= k < r.error.index ==> items[k].JObject?
  {
    if items == [] then Success([])
    else if !items[0].JObject? then Failure(NotAnObject(0))
    else
      match Objects(items[1..])
      case Success(rest) => Success([items[0].fields] + rest)
      case Failure(e) => Failure(NotAnObject(e.index + 1))
  }

  /**
   * The shape check `load_tasks` applies to the decoded value: it must be an
   * array, and each element an object; the records are then the elements, in
   * the same order.
   */
  function Shape(data: Value): (r: Result<seq<Task>, Corruption>)
    ensures r == Failure(NotAnArray) <==> !data.JArray?
    ensures r.Success? <==> data.JArray? && forall k :: 0 <= k < |data.items| ==> data.items[k].JObject?
    ensures r.Success? ==> |r.value| == |data.items| && forall k :: 0 <= k < |data.items| ==> data.items[k] == JObject(r.value[k])
    ensures r.Failure? && data.JArray? ==> r.error.NotAnObject? && r.error.index < |data.items|
    ensures r.Failure? && data.JArray? ==> !data.items[r.error.index].JObject? && forall k :: 0 <= k < r.error.index ==> data.items[k].JObject?
  {
    match data
    case JArray(items) => Objects(items)
    case _ => Failure(NotAnArray)
  }

  /** The loop of `load_tasks` over the decoded value, with its early exit on the first non-object. */
  method ValidateShape(data: Value) returns (r: Result<seq<Task>, Corruption>)
    ensures r == Shape(data)
  {
    if !data.JArray? {
      return Failure(NotAnArray);
    }
    var tasks: seq<Task> := [];
    for index := 0 to |data.items|
      invariant |tasks| == index
      invariant forall k :: 0 <= k < index ==> data.items[k] == JObject(tasks[k])
    {
      var item := data.items[index];
      if !item.JObject? {
        return Failure(NotAnObject(index));
      }
      tasks := tasks + [item.fields];
    }
    r := Success(tasks);
    assert Shape(data).Success?;
    assert Shape(data).value == tasks;
  }

  /**
   * What `load_tasks` makes of existing content: blank text gives the empty
   * list, other undecodable text is invalid JSON, and a decoded value goes
   * through the shape check.
   */
  function Decode(c: Contents): (r: Result<seq<Task>, Corruption>)
    ensures c.Undecodable? ==> (r.Success? <==> IsBlank(c.raw))
    ensures c.Undecodable? && r.Success? ==> r.value == []
    ensures c.Undecodable? && r.Failure? ==> r.error == InvalidJson
    ensures c.Decoded? ==> r != Failure(InvalidJson)
    ensures c.Decoded? ==> r == Shape(c.value)
  {
    match c
    case Undecodable(raw) => if Strip(raw) == [] then Success([]) else Failure(InvalidJson)
    case Decoded(v) => Shape(v)
  }

  /** What `json.dumps` of a task list decodes back to: an array of the records as objects. */
  function Encode(tasks: seq<Task>): Contents {
    Decoded(JArray(seq(|tasks|, k requires 0 <= k < |tasks| => JObject(tasks[k]))))
  }

  /** The file content once `ensure_tasks_file` has run: an absent file reads as "[]". */
  function Materialised(file: Option<Contents>): Contents {
    if file.None? then EmptyArray else file.value
  }

  /** The outcome of `load_tasks` on the file as it stands before the call. */
  function Loaded(file: Option<Contents>): Result<seq<Task>, Corruption> {
    Decode(Materialised(file))
  }

  /** Saving a list and loading it again gives back the same records in the same order. */
  lemma SaveThenLoad(tasks: seq<Task>)
    ensures Decode(Encode(tasks)) == Success(tasks)
  {
    var r := Decode(Encode(tasks));
    assert r.Success?;
    assert r.value == tasks;
  }

  /** An absent file is the empty list; blank content is too. */
  lemma AbsentOrBlankFileIsEmpty(file: Option<Contents>)
    requires file.None? || (file.value.Undecodable? && IsBlank(file.value.raw))
    ensures Loaded(file) == Success([])
  {
  }

  /** The task file: the single piece of state of the whole system. */
  class Store {
    var file: Option<Contents>

    constructor (initial: Option<Contents>)
      ensures file == initial
    {
      file := initial;
    }

    /** `ensure_tasks_file`: an absent file is created holding "[]"; an existing one is left alone. */
    method EnsureTasksFile()
      modifies this
      ensures old(file).None? ==> file == Some(EmptyArray)
      ensures old(file).Some? ==> file == old(file)
    {
      if file.None? {
        file := Some(EmptyArray);
      }
    }

    /** `load_tasks`: materialise the file, then read and validate its content. */
    method LoadTasks() returns (r: Result<seq<Task>, Corruption>)
      modifies this
      ensures file == Some(Materialised(old(file)))
      ensures r == Loaded(old(file))
    {
      EnsureTasksFile();
      match file.value
      case Undecodable(raw) =>
        if Strip(raw) == [] {
          r := Success([]);
        } else {
          r := Failure(InvalidJson);
        }
      case Decoded(v) =>
        r := ValidateShape(v);
    }

    /** `save_tasks`: the whole content is replaced by the given list; nothing of the old content survives. */
    method SaveTasks(tasks: seq<Task>)
      modifies this
      ensures file == Some(Encode(tasks))
      ensures Loaded(file) == Success(tasks)
    {
      EnsureTasksFile();
      file := Some(Encode(tasks));
      SaveThenLoad(tasks);
    }
  }
}
