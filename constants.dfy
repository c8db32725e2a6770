/** Fixed values shared by the client, the page and the middleware. */
module Constants {
  import opened Types

  /** Cookie holding the JSON-encoded task list. */
  const TasksStorageKey: string := "tasklist.tasks"
  /** Cookie recording that the first visit has been handled. */
  const InitFlagKey: string := "tasklist.initialized"

  const PageSize: nat := 5
  const MinTitle: nat := 3
  const MaxTitle: nat := 40

  /** The tasks a first-time visitor sees. */
  const DefaultTasks: seq<Task> := [
    Task("7kh25pxwd", "Get shit done", false),
    Task("4p6wgde0i", "Have lunch with colleagues", false),
    Task("55oe99ze4", "Go home with a smile", false),
    Task("k8s3q1mzp", "Reply to important emails", false),
    Task("v9n2x4btr", "Review pull requests", false)
  ]

  /** `JSON.stringify(DEFAULT_TASKS)`, written out. */
  const DefaultTasksJson: string :=
    "[{\"id\":\"7kh25pxwd\",\"title\":\"Get shit done\",\"completed\":false},"
    + "{\"id\":\"4p6wgde0i\",\"title\":\"Have lunch with colleagues\",\"completed\":false},"
    + "{\"id\":\"55oe99ze4\",\"title\":\"Go home with a smile\",\"completed\":false},"
    + "{\"id\":\"k8s3q1mzp\",\"title\":\"Reply to important emails\",\"completed\":false},"
    + "{\"id\":\"v9n2x4btr\",\"title\":\"Review pull requests\",\"completed\":false}]"
}
