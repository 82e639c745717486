/** The records the client and the server exchange, and the client-side
    value types of the to-do list. */
module Types {
  import opened Wrappers
  import opened MachineInt

  /** The kind of the one notification the page can show. */
  datatype NotificationType =
    | SuccessAdd
    | SuccessUpdate
    | SuccessDelete
    | Error(message: string)

  /** The working copy of a record while it is edited inline. */
  datatype UpdateForm = UpdateForm(title: string, description: string, dueDate: string)

  /** One to-do record as the server hands it to the client. */
  datatype Todo = Todo(
    id: I32,
    title: string,
    description: string,
    completed: bool,
    created: Option<string>,
    dueDate: string)

  /** One page of records plus the counts the pagination controls need. */
  datatype PaginatedTodos = PaginatedTodos(items: seq<Todo>, total: U32, page: U32, totalPages: U32)
}
