/** The task store: the `tasks` and `subtasks` tables as maps keyed by their
    auto-incremented ids, with the CRUD operations and the listing query. */
module TaskRepo {
  import opened Text
  import opened Models
  import TaskQuery

  /** The subtasks created for a new task: ids `firstId, firstId + 1, ...`,
      one per title, in the order of `titles`. */
  function NewSubTasks(taskId: int, firstId: int, titles: seq<string>): map<int, SubTask> {
    if titles == [] then map[]
    else
      var n := |titles| - 1;
      NewSubTasks(taskId, firstId, titles[..n])[firstId + n := NewSubTask(firstId + n, taskId, titles[n])]
  }

  /** The new subtasks take the ids `firstId` to `firstId + |titles| - 1`,
      the `k`-th one with the `k`-th title, not done, under `taskId`. */
  lemma {:induction false} NewSubTasksSpec(taskId: int, firstId: int, titles: seq<string>)
    ensures forall k :: k in NewSubTasks(taskId, firstId, titles) <==> firstId <= k < firstId + |titles|
    ensures forall k | k in NewSubTasks(taskId, firstId, titles) ::
              NewSubTasks(taskId, firstId, titles)[k] == NewSubTask(k, taskId, titles[k - firstId])
    decreases |titles|
  {
    if titles != [] {
      var n := |titles| - 1;
      NewSubTasksSpec(taskId, firstId, titles[..n]);
      assert forall k | 0 <= k < n :: titles[..n][k] == titles[k];
    }
  }

  lemma NewSubTasksSnoc(taskId: int, firstId: int, titles: seq<string>, x: string)
    ensures NewSubTasks(taskId, firstId, titles + [x])
         == NewSubTasks(taskId, firstId, titles)[firstId + |titles| := NewSubTask(firstId + |titles|, taskId, x)]
  {
    assert (titles + [x])[..|titles|] == titles;
  }

  lemma UnionUpdate(m: map<int, SubTask>, a: map<int, SubTask>, k: int, v: SubTask)
    ensures m + a[k := v] == (m + a)[k := v]
  {
  }

  /** Every stored id was handed out by its counter and is the row's own id;
      every subtask names a parent id that was handed out. */
  ghost predicate Consistent(tasks: map<int, Task>, subtasks: map<int, SubTask>, nextTaskId: int, nextSubId: int) {
    && 1 <= nextTaskId && 1 <= nextSubId
    && (forall id | id in tasks :: 1 <= id < nextTaskId && tasks[id].id == id)
    && (forall id | id in subtasks ::
          1 <= id < nextSubId && subtasks[id].id == id && 1 <= subtasks[id].taskId < nextTaskId)
  }

  /** Creating a task with the next ids keeps the tables consistent, and the
      new task owns exactly the new subtasks. */
  lemma CreateKeepsConsistent(tasks: map<int, Task>, subtasks: map<int, SubTask>, nextTaskId: int, nextSubId: int,
                              task: Task, titles: seq<string>)
    requires Consistent(tasks, subtasks, nextTaskId, nextSubId)
    requires task.id == nextTaskId
    ensures var subs := subtasks + NewSubTasks(task.id, nextSubId, titles);
            && Consistent(tasks[task.id := task], subs, nextTaskId + 1, nextSubId + |titles|)
            && (forall id | id in subs :: subs[id].taskId == task.id <==> id !in subtasks)
  {
    NewSubTasksSpec(task.id, nextSubId, titles);
  }

  /** A turn of the creation loop on a blank entry adds nothing. */
  lemma SkipBlank(titles: seq<string>, i: int)
    requires 0 <= i < |titles| && Strip(titles[i]) == []
    ensures Clean(titles[..i + 1]) == Clean(titles[..i])
  {
    CleanPrefix(titles, i);
  }

  /** A turn of the creation loop on any other entry adds one subtask, the
      trimmed entry, under the next id. */
  lemma AddEntry(subtasks: map<int, SubTask>, nextSubId: int, taskId: int, titles: seq<string>, i: int,
                 subs: map<int, SubTask>, nextId: int)
    requires 0 <= i < |titles| && Strip(titles[i]) != []
    requires nextId == nextSubId + |Clean(titles[..i])|
    requires subs == subtasks + NewSubTasks(taskId, nextSubId, Clean(titles[..i]))
    ensures nextId + 1 == nextSubId + |Clean(titles[..i + 1])|
    ensures subs[nextId := NewSubTask(nextId, taskId, Strip(titles[i]))]
         == subtasks + NewSubTasks(taskId, nextSubId, Clean(titles[..i + 1]))
  {
    KeepEntry(titles, i);
    StoreEntry(subtasks, nextSubId, taskId, Clean(titles[..i]), Strip(titles[i]), subs, nextId);
  }

  /** Cleaning one more entry that is not blank appends it, trimmed. */
  lemma KeepEntry(titles: seq<string>, i: int)
    requires 0 <= i < |titles| && Strip(titles[i]) != []
    ensures Clean(titles[..i + 1]) == Clean(titles[..i]) + [Strip(titles[i])]
  {
    CleanPrefix(titles, i);
  }

  /** Storing one more title under the next id is creating the subtasks of
      the longer list of titles. */
  lemma StoreEntry(subtasks: map<int, SubTask>, nextSubId: int, taskId: int, kept: seq<string>, st: string,
                   subs: map<int, SubTask>, nextId: int)
    requires nextId == nextSubId + |kept|
    requires subs == subtasks + NewSubTasks(taskId, nextSubId, kept)
    ensures subs[nextId := NewSubTask(nextId, taskId, st)] == subtasks + NewSubTasks(taskId, nextSubId, kept + [st])
  {
    NewSubTasksSnoc(taskId, nextSubId, kept, st);
    UnionUpdate(subtasks, NewSubTasks(taskId, nextSubId, kept), nextId, NewSubTask(nextId, taskId, st));
  }

  /** The loop of `create_task` over the subtask entries: each non-blank
      entry, trimmed, becomes a not-done subtask of `taskId` under the next
      subtask id; blank entries are skipped. */
  method AppendSubTasks(subtasks: map<int, SubTask>, nextSubId: int, taskId: int, titles: seq<string>)
    returns (subs: map<int, SubTask>, nextId: int)
    ensures nextId == nextSubId + |Clean(titles)|
    ensures subs == subtasks + NewSubTasks(taskId, nextSubId, Clean(titles))
  {
    subs, nextId := subtasks, nextSubId;
    var i := 0;
    while i < |titles|
      invariant 0 <= i <= |titles|
      invariant nextId == nextSubId + |Clean(titles[..i])|
      invariant subs == subtasks + NewSubTasks(taskId, nextSubId, Clean(titles[..i]))
    {
      var st := Strip(titles[i]);
      if st != [] {
        AddEntry(subtasks, nextSubId, taskId, titles, i, subs, nextId);
        subs := subs[nextId := NewSubTask(nextId, taskId, st)];
        nextId := nextId + 1;
      } else {
        SkipBlank(titles, i);
      }
      i := i + 1;
    }
    CleanWhole(titles);
  }

  /** The ids of `tasks` are their keys, from 1 on. */
  predicate KeyedById(tasks: map<int, Task>) {
    forall id | id in tasks :: 1 <= id && tasks[id].id == id
  }

  /** The rows of `tasks` with ids below `n`, in ascending id order. */
  function RowsBelow(tasks: map<int, Task>, n: int): seq<Task>
    decreases n
  {
    if n <= 1 then []
    else RowsBelow(tasks, n - 1) + (if n - 1 in tasks then [tasks[n - 1]] else [])
  }

  /** The rows below `n` extend the rows below `n - 1` by the task with
      id `n - 1`, if there is one. */
  lemma RowsBelowSnoc(tasks: map<int, Task>, n: int)
    requires n > 1
    ensures forall i | 0 <= i < |RowsBelow(tasks, n - 1)| :: RowsBelow(tasks, n)[i] == RowsBelow(tasks, n - 1)[i]
    ensures forall i | |RowsBelow(tasks, n - 1)| <= i < |RowsBelow(tasks, n)| ::
              n - 1 in tasks && RowsBelow(tasks, n)[i] == tasks[n - 1]
  {
    var prev, r := RowsBelow(tasks, n - 1), RowsBelow(tasks, n);
    assert r == prev + (if n - 1 in tasks then [tasks[n - 1]] else []);
  }

  /** Every row is the stored task under its own id, below `n`. */
  lemma {:induction false} RowsBelowSound(tasks: map<int, Task>, n: int)
    requires KeyedById(tasks)
    ensures forall i | 0 <= i < |RowsBelow(tasks, n)| ::
              && RowsBelow(tasks, n)[i].id in tasks
              && tasks[RowsBelow(tasks, n)[i].id] == RowsBelow(tasks, n)[i]
              && RowsBelow(tasks, n)[i].id < n
    decreases n
  {
    if n > 1 {
      RowsBelowSound(tasks, n - 1);
      RowsBelowSnoc(tasks, n);
    }
  }

  /** Every stored task with an id below `n` is a row. */
  lemma {:induction false} RowsBelowComplete(tasks: map<int, Task>, n: int)
    requires KeyedById(tasks)
    ensures forall id | id in tasks && id < n :: tasks[id] in RowsBelow(tasks, n)
    decreases n
  {
    if n > 1 {
      RowsBelowComplete(tasks, n - 1);
    }
  }

  /** The rows come in strictly ascending id order. */
  lemma {:induction false} RowsBelowAscending(tasks: map<int, Task>, n: int)
    requires KeyedById(tasks)
    ensures forall i, j | 0 <= i < j < |RowsBelow(tasks, n)| :: RowsBelow(tasks, n)[i].id < RowsBelow(tasks, n)[j].id
    decreases n
  {
    if n > 1 {
      var prev, r := RowsBelow(tasks, n - 1), RowsBelow(tasks, n);
      RowsBelowSound(tasks, n - 1);
      RowsBelowAscending(tasks, n - 1);
      RowsBelowSnoc(tasks, n);
      forall i, j | 0 <= i < j < |r| ensures r[i].id < r[j].id {
        assert r[i] == prev[i];
      }
    }
  }

  class TaskStore {
    var tasks: map<int, Task>
    var subtasks: map<int, SubTask>
    /** The next id the `tasks` table hands out. */
    var nextTaskId: int
    /** The next id the `subtasks` table hands out. */
    var nextSubId: int

    ghost predicate Valid()
      reads this
    {
      Consistent(tasks, subtasks, nextTaskId, nextSubId)
    }

    constructor ()
      ensures Valid()
      ensures tasks == map[] && subtasks == map[]
      ensures nextTaskId == 1 && nextSubId == 1
    {
      tasks, subtasks := map[], map[];
      nextTaskId, nextSubId := 1, 1;
    }

    /** `create_task`: a new not-done task with the trimmed title and
        description and the given due date, and one not-done subtask per
        non-blank entry of `subtaskTitles`, trimmed, in input order. */
    method CreateTask(title: string, description: string, due: Option<int>, subtaskTitles: seq<string>, now: int)
      returns (task: Task)
      requires Valid()
      modifies this
      ensures Valid()
      ensures task == NewTask(old(nextTaskId), Strip(title), now, Strip(description), due)
      ensures task.id !in old(tasks)
      ensures tasks == old(tasks)[task.id := task]
      ensures nextTaskId == old(nextTaskId) + 1
      ensures nextSubId == old(nextSubId) + |Clean(subtaskTitles)|
      ensures subtasks == old(subtasks) + NewSubTasks(task.id, old(nextSubId), Clean(subtaskTitles))
      ensures forall id | id in subtasks :: subtasks[id].taskId == task.id <==> id !in old(subtasks)
    {
      task := NewTask(nextTaskId, Strip(title), now, Strip(description), due);
      var subs, nextId := AppendSubTasks(subtasks, nextSubId, task.id, subtaskTitles);
      CreateKeepsConsistent(tasks, subtasks, nextTaskId, nextSubId, task, Clean(subtaskTitles));
      tasks, subtasks := tasks[task.id := task], subs;
      nextTaskId, nextSubId := nextTaskId + 1, nextId;
    }

    /** `update_task`: on a stored id, replaces title and description (both
        trimmed), the due date and `updatedAt`; an unknown id changes nothing. */
    method UpdateTask(id: int, title: string, description: string, due: Option<int>, now: int)
      requires Valid()
      modifies this
      ensures Valid()
      ensures id in old(tasks) ==>
        tasks == old(tasks)[id := old(tasks)[id].(title := Strip(title), description := Strip(description),
                                                  due := due, updatedAt := now)]
      ensures id !in old(tasks) ==> tasks == old(tasks)
      ensures subtasks == old(subtasks)
      ensures nextTaskId == old(nextTaskId) && nextSubId == old(nextSubId)
    {
      if id in tasks {
        var t := tasks[id];
        tasks := tasks[id := t.(title := Strip(title), description := Strip(description), due := due, updatedAt := now)];
      }
    }

    /** `delete_task`: removes the task with that id, if any. The statement is
        a bulk delete, so the relationship cascade does not run and the
        subtask rows stay as they are. */
    method DeleteTask(id: int)
      requires Valid()
      modifies this
      ensures Valid()
      ensures tasks == old(tasks) - {id}
      ensures subtasks == old(subtasks)
      ensures nextTaskId == old(nextTaskId) && nextSubId == old(nextSubId)
    {
      tasks := tasks - {id};
    }

    /** `set_done`: changes only the done flag and `updatedAt` of that task. */
    method SetDone(id: int, isDone: bool, now: int)
      requires Valid()
      modifies this
      ensures Valid()
      ensures id in old(tasks) ==> tasks == old(tasks)[id := old(tasks)[id].(isDone := isDone, updatedAt := now)]
      ensures id !in old(tasks) ==> tasks == old(tasks)
      ensures subtasks == old(subtasks)
      ensures nextTaskId == old(nextTaskId) && nextSubId == old(nextSubId)
    {
      if id in tasks {
        tasks := tasks[id := tasks[id].(isDone := isDone, updatedAt := now)];
      }
    }

    /** `set_subtask_done`: changes only that subtask's done flag; its parent
        task (done flag and `updatedAt` included) is untouched. */
    method SetSubtaskDone(subId: int, isDone: bool)
      requires Valid()
      modifies this
      ensures Valid()
      ensures subId in old(subtasks) ==> subtasks == old(subtasks)[subId := old(subtasks)[subId].(isDone := isDone)]
      ensures subId !in old(subtasks) ==> subtasks == old(subtasks)
      ensures tasks == old(tasks)
      ensures nextTaskId == old(nextTaskId) && nextSubId == old(nextSubId)
    {
      if subId in subtasks {
        subtasks := subtasks[subId := subtasks[subId].(isDone := isDone)];
      }
    }

    /** `get_task`: the stored task with that id, or none. */
    function GetTask(id: int): (r: Option<Task>)
      reads this
      requires Valid()
      ensures r.Some? <==> id in tasks
      ensures r.Some? ==> r.value == tasks[id] && r.value.id == id
    {
      if id in tasks then Some(tasks[id]) else None
    }

    /** `get_projects`: this revision has no project column, so no projects. */
    function GetProjects(): (r: seq<string>)
      ensures |r| == 0
    {
      []
    }

    /** All stored tasks, one row per id. */
    function Rows(): (r: seq<Task>)
      reads this
      requires Valid()
      ensures forall t | t in r :: t.id in tasks && tasks[t.id] == t
      ensures forall id | id in tasks :: tasks[id] in r
      ensures TaskQuery.DistinctIds(r)
    {
      RowsBelowSound(tasks, nextTaskId);
      RowsBelowComplete(tasks, nextTaskId);
      RowsBelowAscending(tasks, nextTaskId);
      RowsBelow(tasks, nextTaskId)
    }

    /** `list_tasks`: every stored task that passes the search and the mode,
        each once, and nothing else, in the four-key order. */
    function ListTasks(searchText: string, mode: string, startOfToday: int): (r: seq<Task>)
      reads this
      requires Valid()
      ensures forall t | t in r :: t.id in tasks && tasks[t.id] == t
                                   && TaskQuery.Selected(t, searchText, mode, startOfToday)
      ensures forall id | id in tasks && TaskQuery.Selected(tasks[id], searchText, mode, startOfToday) ::
                tasks[id] in r
      ensures TaskQuery.Sorted(r)
      ensures TaskQuery.DistinctIds(r)
    {
      TaskQuery.ListDistinct(Rows(), searchText, mode, startOfToday);
      TaskQuery.ListTasks(Rows(), searchText, mode, startOfToday)
    }
  }
}
