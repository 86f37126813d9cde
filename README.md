# Task tracker core, modelled in Dafny

A personal task tracker keeps its tasks in one file, `tasks.json`, as a JSON
array of records. Each record has an `id`, a `description`, a `status` (`todo`,
`in-progress` or `done`) and two timestamps, `createdAt` and `updatedAt`. Every
operation (add, update, delete, mark, list) loads the whole array and works on
that in-memory copy. A successful add, update or mark then saves the changed
list, a successful delete saves a filtered copy, and list never saves. Loading
itself creates an absent file holding `[]`.

The model has one module per component:

- `Text` (text.dfy): Python's `str.strip()`. It removes exactly the characters
  `str.isspace` accepts.
- `TaskStore` (task_store.dfy): the store. The file is a `Store` object whose
  one field `file` is absent or holds `Contents`. Content is seen the way
  `json.loads` sees it after stripping: either text that does not decode (blank
  text is among it) or a decoded JSON `Value`. The module also holds the shape
  validation of `load_tasks`, `save_tasks`, `ensure_tasks_file`, and
  `get_next_task_id`.
- `TaskService` (task_service.dfy): the operations. A record is a
  `map<string, Value>`, so `IdOf` and `StatusOf` are `dict.get`. The stored
  methods `AddTask`, `UpdateTask`, `DeleteTask`, `MarkTask` and `ListTasks` all
  load first. `AddTask`, `UpdateTask` and `MarkTask` then change the local list
  in place (append, or replace the found record) and save it. `DeleteTask`
  saves a filtered copy. `ListTasks` never saves. Each one is proved against
  the specification functions beside it.
- `ServiceProperties` (service_properties.dfy): lemmas that relate the
  operations. They cover id freshness and uniqueness, deletion as removal at
  one position, the split of the listings, and the stability of the sort.
- `Wrappers` and `Json` (wrappers.dfy, json.dfy): `Option`, `Result`, and the
  JSON value datatype.

The clock is a parameter: `now` is the timestamp text an operation stamps
records with. The errors are the `Error` variants `EmptyDescription`,
`NotFound`, `InvalidStatus`, `CorruptStore` (carrying `InvalidJson`,
`NotAnArray` or `NotAnObject(index)`) and `UnorderableIds`. In the code the
first four are all `ValueError` with different messages, and the last is the
`TypeError` that `sorted` raises.

In a few places the code does something other than what one might expect
of a task tracker. The model follows the code:

- Loading calls `ensure_tasks_file`, so an absent file is written as `[]` even
  when the operation then fails (a blank description, an unknown id, a bad
  filter). One might expect a failed validation never to write the store. Only
  `mark_task`'s status check runs before the file is touched.
- The next id is one more than the largest positive integer id currently
  present, or 1 when there is none. If the record with the largest id is
  deleted, the next add reuses that id. One might expect ids never to be
  reused, even after deletion. `DeletedLargestIdIsReused` shows this on two
  records.
- `delete_task` removes every record that carries the id, not only the one it
  returns. `DeleteRemovesExactlyOne` shows that the two coincide when ids are
  unique.
- A record with a present but non-integer id (JSON `null`, a string, ...)
  gives `sorted` a key that is not an integer. When two or more filtered
  records are listed and such a key meets a key it cannot be ordered against
  (`None` with `None`, or `None` or a string with an integer), Python's
  `sorted` raises. The model reports any such key
  among two or more records as an error; see `Ordered` under "## Left out".

## Model

| member | source | states |
|---|---|---|
| `Text.Strip` | task_service.py:17 | The result is empty exactly when the input is all whitespace. Otherwise it starts and ends with a non-whitespace character. |
| `Text.StripIsInfix` | task_service.py:17 | The stripped text is one contiguous piece of the input, with only whitespace before and after it. |
| `TaskService.CleanDescription` | task_service.py:16-20 | Fails with `EmptyDescription` exactly when the description is blank. Otherwise it returns the stripped text, which is non-empty and has no surrounding whitespace. |
| `TaskService.IndexOfId` | task_service.py:23-27 | Returns None exactly when no record has the id. Otherwise it returns a position whose record has the id and before which no record has it. |
| `TaskService.FindTask` | task_service.py:23-27 | The loop with early return gives the first record with the id, or None when there is none. |
| `TaskService.NewTask` | task_service.py:34-40 | The built record has the given id, status "todo", the given description and `createdAt == updatedAt == now`, and no other field. |
| `TaskService.Describe` | task_service.py:52-53 | The updated record has the new description and `updatedAt`. Every other field, `id`, `status` and `createdAt` among them, is unchanged. |
| `TaskService.Restatus` | task_service.py:78-79 | The marked record has the new status and `updatedAt`. Every other field, `id` and `createdAt` among them, is unchanged. |
| `TaskService.RemoveId` | task_service.py:64 | The kept records are exactly those without the id, each kept as often as in the input. |
| `TaskService.SortById` | task_service.py:87 | The result is ascending by id (a missing id counts as 0) and is a permutation of the input. |
| `TaskService.InsertKeepsSorted` | task_service.py:87 | Inserting a record into a list sorted by id keeps it sorted. |
| `TaskService.Select` | task_service.py:91 | Keeps exactly the records that pass the filter, each as often as in the input. |
| `TaskService.Ordered` | task_service.py:87 | Fails with `UnorderableIds` exactly when two or more records are sorted and one has a present non-integer id. Otherwise the result is sorted and a permutation of the input. |
| `TaskService.Listing` | task_service.py:84-101 | An invalid filter is `InvalidStatus`. None keeps all records, "not-done" keeps todo/in-progress, and a valid status keeps exact matches. The result is sorted by id and has the same multiplicities as the passing records. It always succeeds when those records' ids are absent or integers. |
| `TaskService.AddTask` | task_service.py:30-43 | A corrupt store or a blank description (checked after the load) fails, leaving only the materialised file. Otherwise the saved list is the loaded one with `NewTask(NextTaskId(loaded), stripped, now)` appended, and that record is returned. |
| `TaskService.UpdateTask` | task_service.py:46-55 | A corrupt store fails first, then an unknown id with `NotFound`, then a blank description; none of them saves. Otherwise only the first record with the id is replaced by `Describe(...)`, the list is saved and that record is returned. |
| `TaskService.DeleteTask` | task_service.py:58-66 | A corrupt store or an unknown id fails without saving. Otherwise `RemoveId(loaded, id)` is saved and the first record found, as it was before deletion, is returned. |
| `TaskService.MarkTask` | task_service.py:69-81 | A status outside the three valid ones fails with the file untouched. Then a corrupt store or an unknown id fails without saving. Otherwise only the found record is replaced by `Restatus(...)`, the list is saved and the record is returned. |
| `TaskService.ListTasks` | task_service.py:84-101 | The load comes first, and a corrupt store is `CorruptStore` whatever the filter. Otherwise the result is `Listing(loaded, filter)`. The content is never rewritten; an absent file is materialised. |
| `TaskStore.IntId` | task_store.py:52-53 | Gives the id exactly when `get("id")` is an integer. |
| `TaskStore.NextTaskId` | task_store.py:49-55 | The result is at least 1 and greater than every integer id. It is 1, or one more than an id that is present; that is, one more than the largest positive id. |
| `TaskStore.GetNextTaskId` | task_store.py:49-55 | The running-maximum loop computes `NextTaskId`. |
| `TaskStore.Objects` | task_store.py:36-41 | Succeeds exactly when every element is an object, returning the elements' members in order. Otherwise it names the index of the first non-object. |
| `TaskStore.Shape` | task_store.py:33-41 | A non-array is `NotAnArray`. An array yields its objects in order, or `NotAnObject(i)` for the first non-object `i`. |
| `TaskStore.ValidateShape` | task_store.py:33-41 | The loop with early exit computes `Shape`. |
| `TaskStore.Decode` | task_store.py:24-41 | Undecodable content is the empty list exactly when blank, and otherwise `InvalidJson`. Decoded content is never `InvalidJson` and goes through the shape check: the result is `Shape(value)`, so a non-array is `NotAnArray`, the first non-object is named by its index, and otherwise the records are the elements in order. |
| `TaskStore.SaveThenLoad` | task_store.py:44-46 | Loading what `save_tasks` wrote gives back the same records in the same order. |
| `TaskStore.AbsentOrBlankFileIsEmpty` | task_store.py:15-26 | An absent file or blank content loads as the empty list. |
| `TaskStore.Store.EnsureTasksFile` | task_store.py:15-19 | An absent file becomes `[]`; an existing file is left as it is. |
| `TaskStore.Store.LoadTasks` | task_store.py:22-41 | Materialises the file, then returns `Decode` of its content. |
| `TaskStore.Store.SaveTasks` | task_store.py:44-46 | The whole content is replaced by the encoded list, which loads back as exactly that list. |
| `ServiceProperties.AddKeepsIdsUnique` | task_service.py:34-41 | Appending the new record to a list with unique integer ids keeps them unique. |
| `ServiceProperties.NextIdAfterAdd` | task_store.py:49-55 | After an add, the next id is exactly one more, so successive adds get strictly increasing ids. |
| `ServiceProperties.NextTaskIdFromIds` | task_store.py:49-55 | Two lists with the same integer ids at each position get the same next id. |
| `ServiceProperties.EditKeepsIds` | task_service.py:52-53 | An in-place edit that keeps the record's id keeps the ids unique and leaves the next id where it was. |
| `ServiceProperties.DeleteDoesNotRaiseNextId` | task_service.py:64 | The next id after a delete is at most the next id before it. |
| `ServiceProperties.DeletedLargestIdIsReused` | task_store.py:49-55 | With records 1 and 2, the next id is 3. After deleting 2 it is 2 again. |
| `ServiceProperties.RemoveIdAppend` | task_service.py:64 | Deletion filtering distributes over concatenation, so the remaining records keep their relative order. |
| `ServiceProperties.RemoveAbsentId` | task_service.py:64 | When no record has the id, filtering keeps the list as it is. |
| `ServiceProperties.RemoveSingleOccurrence` | task_service.py:64 | When exactly one record has the id, deletion cuts out just that record. |
| `ServiceProperties.DeleteRemovesExactlyOne` | task_service.py:58-66 | With unique ids, the saved list is the loaded one without the found record, all others kept in order. |
| `ServiceProperties.UniqueIdsCons` | task_service.py:64 | A list headed by a record has unique ids exactly when the tail does and no tail record shares the head's integer id. |
| `ServiceProperties.DeleteKeepsIdsUnique` | task_service.py:64 | Deletion keeps integer ids unique. |
| `ServiceProperties.NotDoneAndDoneSelectSplit` | task_service.py:89-101 | Whatever the ids, the records the "not-done" and "done" filters keep share none, and together they are exactly the records whose status is valid. |
| `ServiceProperties.NotDoneAndDoneSplitValid` | task_service.py:89-101 | When the records with a valid status have absent or integer ids, whatever the other records hold, the "not-done" and "done" listings both succeed and share no record. Together they hold exactly the records whose status is valid. |
| `ServiceProperties.SelectAppend` | task_service.py:89-101 | The filter distributes over concatenation, so the passing records keep their file order; with `SortByIdIsStable`, records of a filtered listing that share a key appear in file order. |
| `ServiceProperties.ListAllIsSortedPermutation` | task_service.py:86-87 | When the file has at most one record, or every id is absent or an integer, listing without a filter succeeds, is sorted by id, has one entry per record, and is a permutation of the file. |
| `ServiceProperties.InsertIsStable` | task_service.py:87 | Inserting a record keeps the order of the records that share any one key. |
| `ServiceProperties.SortByIdIsStable` | task_service.py:87 | The sort is stable: records with equal keys keep their file order. |
| `ServiceProperties.MarkThenListNotDone` | task_service.py:69-101 | Records 1 "todo" and 2 "done": after marking 1 "in-progress", the "not-done" listing is exactly the changed record 1. |
| `ServiceProperties.FirstAddOnAbsentFile` | task_service.py:30-43 | On an absent file, the first add builds task 1 with status "todo" and equal timestamps. |

## Left out

- Filesystem access (`Path.cwd`, `exists`, `read_text`, `write_text`, the file name `tasks.json` and the path `ensure_tasks_file` returns) is not modelled. The file is the `file` field of a `Store`. Unreadable or unwritable files, and the I/O errors they raise, are not modelled either.
- `json.loads` and `json.dumps` are foreign code. Content is modelled as already decoded (`Decoded`) or not decodable (`Undecodable`). The two-space indentation, the textual form, and the order of keys within an object are not modelled. `Encode` is what the written text decodes back to.
- JSON numbers with a fraction or exponent (Python floats) are not in `Value`. Python would ignore a float id in `get_next_task_id` but let `_find_task` match `1.0 == 1`.
- IntId: Python's `bool` is an `int`, so `True` counts as id 1 in `get_next_task_id`, matches id 1 in `_find_task`, and sorts among integers. The model treats a JSON boolean id as non-integer everywhere.
- Ordered: Python's `sorted` raises only when two keys of incomparable types meet. Filtered records whose ids are all strings are ordered without error in Python, but the model reports `UnorderableIds` for any present non-integer id among two or more records.
- `_timestamp` (the UTC clock and its ISO-8601 formatting) is the `now` parameter. That `updatedAt` never decreases is therefore not stated.
- The error messages of the `ValueError`s are not modelled; only which error is raised is.
- Object identity is not modelled: the record `update_task` and `mark_task` return is the very dict that was saved, and the model returns an equal value.
- Concurrent runs of the tool (last writer wins) are not modelled; the code has no concurrency.
