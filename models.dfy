/** The two persisted entities: a task and its checklist lines (subtasks).
    Date-times are integer timestamps in seconds. */
module Models {

  datatype Option<T> = None | Some(value: T)

  /** A row of the `tasks` table. `due` is the only nullable column. */
  datatype Task = Task(
    id: int,
    title: string,
    description: string,
    due: Option<int>,
    isDone: bool,
    createdAt: int,
    updatedAt: int)

  /** A row of the `subtasks` table; `taskId` is the required parent key. */
  datatype SubTask = SubTask(id: int, taskId: int, title: string, isDone: bool)

  /** A task as the mapping builds it when only some columns are given:
      no description means the empty one, no due date means none, it starts
      not done, and both timestamps take the moment of creation. */
  function NewTask(id: int, title: string, now: int, description: string := "", due: Option<int> := None): (t: Task)
    ensures t.id == id && t.title == title && t.description == description && t.due == due
    ensures !t.isDone
    ensures t.createdAt == now && t.updatedAt == now
  {
    Task(id, title, description, due, false, now, now)
  }

  /** A subtask starts not done and belongs to exactly the given parent. */
  function NewSubTask(id: int, taskId: int, title: string): (st: SubTask)
    ensures st.id == id && st.taskId == taskId && st.title == title
    ensures !st.isDone
  {
    SubTask(id, taskId, title, false)
  }
}
