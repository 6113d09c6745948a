/** One user's ordered task list with positional add, update, delete and mark-completed. */
module TaskManagers {
  import opened Tasks

  /** A manager bound to one username. Tasks are addressed by their 0-based position in `tasks`. */
  datatype TaskManager = TaskManager(username: string, tasks: seq<Task>)

  /** The state after a positional operation, and whether its index passed the bounds check.
      The result of the file write that follows a change is discarded by update, delete and
      mark-completed. */
  datatype Outcome = Outcome(manager: TaskManager, ok: bool)

  datatype Option<T> = None | Some(value: T)

  /** The name of the user's task file, built from the username exactly as given. */
  function TaskFile(username: string): (file: string)
    ensures |file| == |username| + |"_tasks.json"|
    ensures file[..|username|] == username
    ensures file[|username|..] == "_tasks.json"
  {
    username + "_tasks.json"
  }

  /** Decodes each dictionary of a task file, in order. */
  function FromDicts(ds: seq<TaskDict>): (ts: seq<Task>)
    ensures |ts| == |ds|
    ensures forall k :: 0 <= k < |ds| ==> ts[k] == FromDict(ds[k])
  {
    if ds == [] then [] else [FromDict(ds[0])] + FromDicts(ds[1..])
  }

  /** What `save_tasks` writes: each task as a dictionary, in order. */
  function ToDicts(ts: seq<Task>): (ds: seq<TaskDict>)
    ensures |ds| == |ts|
    ensures forall k :: 0 <= k < |ts| ==> ds[k].Keys == TaskKeys() && FromDict(ds[k]) == ts[k]
  {
    if ts == [] then [] else [ToDict(ts[0])] + ToDicts(ts[1..])
  }

  /** The constructor: `load_tasks` on the user's file. `file` is the parsed list, or `None` when the
      file is missing or unreadable, in which case the manager starts empty. */
  function Open(username: string, file: Option<seq<TaskDict>>): (m: TaskManager)
    ensures m.username == username
    ensures file.None? ==> m.tasks == []
    ensures file.Some? ==> |m.tasks| == |file.value|
    ensures file.Some? ==> forall k :: 0 <= k < |m.tasks| ==> m.tasks[k] == FromDict(file.value[k])
  {
    match file
    case None => TaskManager(username, [])
    case Some(ds) => TaskManager(username, FromDicts(ds))
  }

  /** The bounds check shared by update, delete and mark-completed. */
  predicate InBounds(m: TaskManager, index: int) {
    0 <= index < |m.tasks|
  }

  /** `get_all_tasks`: the list in its current order, so its positions are exactly the indices
      that update, delete and mark-completed accept. */
  function GetAllTasks(m: TaskManager): (all: seq<Task>)
    ensures all == m.tasks
    ensures forall index: int :: InBounds(m, index) <==> 0 <= index < |all|
  {
    m.tasks
  }

  /** `add_task`: appends; there is no bounds check and no result. */
  function AddTask(m: TaskManager, t: Task): (m': TaskManager)
    ensures m'.username == m.username
    ensures |m'.tasks| == |m.tasks| + 1
    ensures m'.tasks[..|m.tasks|] == m.tasks
    ensures m'.tasks[|m.tasks|] == t
  {
    m.(tasks := m.tasks + [t])
  }

  /** `update_task`: replaces the task at `index` wholesale. */
  function UpdateTask(m: TaskManager, index: int, t: Task): (r: Outcome)
    ensures r.ok <==> InBounds(m, index)
    ensures !r.ok ==> r.manager == m
    ensures r.manager.username == m.username
    ensures |r.manager.tasks| == |m.tasks|
    ensures r.ok ==> r.manager.tasks[index] == t
    ensures forall k :: 0 <= k < |m.tasks| && k != index ==> r.manager.tasks[k] == m.tasks[k]
  {
    if 0 <= index < |m.tasks| then Outcome(m.(tasks := m.tasks[index := t]), true)
    else Outcome(m, false)
  }

  /** `delete_task`: removes the task at `index`; every later task moves down one position. */
  function DeleteTask(m: TaskManager, index: int): (r: Outcome)
    ensures r.ok <==> InBounds(m, index)
    ensures !r.ok ==> r.manager == m
    ensures r.manager.username == m.username
    ensures r.ok ==> |r.manager.tasks| == |m.tasks| - 1
    ensures r.ok ==> forall k :: 0 <= k < index ==> r.manager.tasks[k] == m.tasks[k]
    ensures r.ok ==> forall k :: index <= k < |r.manager.tasks| ==> r.manager.tasks[k] == m.tasks[k + 1]
    ensures r.ok ==> multiset(r.manager.tasks) + multiset{m.tasks[index]} == multiset(m.tasks)
  {
    if 0 <= index < |m.tasks| then
      var tasks := m.tasks[..index] + m.tasks[index + 1..];
      assert m.tasks == m.tasks[..index] + [m.tasks[index]] + m.tasks[index + 1..];
      Outcome(m.(tasks := tasks), true)
    else
      Outcome(m, false)
  }

  /** Sets the status of one task to completed and keeps its other fields. */
  function Complete(t: Task): (c: Task)
    ensures c.status == Completed
    ensures c.name == t.name && c.priority == t.priority && c.dueDate == t.dueDate && c.category == t.category
  {
    t.(status := Completed)
  }

  /** `mark_completed`: only the status of the task at `index` changes. */
  function MarkCompleted(m: TaskManager, index: int): (r: Outcome)
    ensures r.ok <==> InBounds(m, index)
    ensures !r.ok ==> r.manager == m
    ensures r.manager.username == m.username
    ensures |r.manager.tasks| == |m.tasks|
    ensures r.ok ==> r.manager.tasks[index] == Complete(m.tasks[index])
    ensures forall k :: 0 <= k < |m.tasks| && k != index ==> r.manager.tasks[k] == m.tasks[k]
  {
    if 0 <= index < |m.tasks| then Outcome(m.(tasks := m.tasks[index := Complete(m.tasks[index])]), true)
    else Outcome(m, false)
  }

  /** Marking the same task completed twice leaves the list as marking it once did. */
  lemma MarkCompletedIdempotent(m: TaskManager, index: int)
    ensures var once := MarkCompleted(m, index).manager;
      MarkCompleted(once, index).manager == once
  {
  }

  /** Deleting the task just added restores the list. */
  lemma DeleteUndoesAdd(m: TaskManager, t: Task)
    ensures DeleteTask(AddTask(m, t), |m.tasks|) == Outcome(m, true)
  {
  }

  /** Writing a task back over itself changes nothing, though the call reports success. */
  lemma UpdateWithSameTask(m: TaskManager, index: int)
    requires InBounds(m, index)
    ensures UpdateTask(m, index, m.tasks[index]) == Outcome(m, true)
  {
  }

  /** Marking a task completed is updating it with its completed copy. */
  lemma MarkCompletedIsUpdate(m: TaskManager, index: int)
    requires InBounds(m, index)
    ensures MarkCompleted(m, index) == UpdateTask(m, index, Complete(m.tasks[index]))
  {
  }

  /** Reading back what `save_tasks` wrote reproduces the task list. */
  lemma {:induction false} SaveThenLoad(ts: seq<Task>)
    ensures FromDicts(ToDicts(ts)) == ts
  {
    if ts != [] {
      SaveThenLoad(ts[1..]);
    }
  }

  /** Reopening a manager on the file its last write produced gives the same manager back. */
  lemma ReopenAfterSave(m: TaskManager)
    ensures Open(m.username, Some(ToDicts(m.tasks))) == m
  {
    SaveThenLoad(m.tasks);
  }

  /** A stored record without a priority loads as a low-priority task. */
  lemma LoadDefaultsPriority(d: TaskDict, username: string)
    requires PriorityKey !in d
    ensures Open(username, Some([d])).tasks[0].priority == DefaultPriority
  {
  }

  /** Distinct usernames get distinct task file names. As paths, distinct names can still denote one file. */
  lemma {:induction false} TaskFileInjective(u: string, v: string)
    requires TaskFile(u) == TaskFile(v)
    ensures u == v
  {
    assert |u| == |v|;
    assert u == TaskFile(u)[..|u|];
  }

  /** A username that starts with a path, such as `./` or `dir/`, puts the task file under that path:
      `./alice` gets `./alice_tasks.json`, the same file as `alice_tasks.json`. */
  lemma {:induction false} TaskFileUnderPath(path: string, username: string)
    ensures TaskFile(path + username) == path + TaskFile(username)
  {
    assert path + username + "_tasks.json" == path + (username + "_tasks.json");
  }

  /** Add "Buy milk", mark it completed, delete it: the list is empty again, with the status
      pending after the add and completed after the mark. */
  lemma Scenario(username: string)
    ensures var m0 := Open(username, None);
      var t := NewTask("Buy milk", "Low", "", "Shopping");
      var m1 := AddTask(m0, t);
      var r2 := MarkCompleted(m1, 0);
      var r3 := DeleteTask(r2.manager, 0);
      && GetAllTasks(m1) == [t]
      && GetAllTasks(m1)[0].status == Pending
      && r2.ok && GetAllTasks(r2.manager)[0].status == Completed
      && r3.ok && GetAllTasks(r3.manager) == []
  {
  }
}
