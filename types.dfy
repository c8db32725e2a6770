/** The records the task list is built from. */
module Types {

  /** A stored to-do item; `id` is opaque and never changes after creation. */
  datatype Task = Task(id: string, title: string, completed: bool)

  /** The unsaved view of one task: typed title and toggled completion. */
  datatype Draft = Draft(title: string, completed: bool)

  /** The per-id draft record (a plain object keyed by task id in the app). */
  type Drafts = map<string, Draft>

  /** A value that may be absent (`null` / `undefined`). */
  datatype Option<+T> = None | Some(value: T)
}
